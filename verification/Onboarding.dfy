/** From a claim to a working mailbox, in both modes. */
module Onboarding {
  import opened Calendar
  import opened Domain
  import opened Lifecycle
  import opened PollSteps
  import opened Legality
  import opened CallLegality
  import opened Runs
  import opened FreeActivation
  import opened Access

  // ---------- activation ----------

  /**
   * A link activates a pending row exactly until its token runs out, without an
   * expiry, and then enables its login; on an active row it enables the login
   * alone. A failure leaves the rest undone.
   */
  lemma ActivationExactlyWhen(st: State, k: nat, hash: string, now: Time, faults: Faults)
    requires UniqueRows(st.rows) && hash != "" && Find(st.rows, ByTokenHash(hash)) == Some(k)
    ensures var m := st.rows[k];
            var t := Activate(st, hash, now, faults);
            var good := m.status == Active ||
                        (m.status == PendingPayment && m.tokenExpiresAt.Some? && now < m.tokenExpiresAt.value);
            var saved := m.status == Active || Call(RowWrite, 0) !in faults;
            var served := saved && Call(Provision, 0) !in faults;
            var row := if m.status == Active then m
                       else m.(status := Active, paidAt := Some(now), expiresAt := None);
            if Call(Lookup, 0) in faults || !good then !t.ok && t.effects == []
            else
              && (t.ok <==> served)
              && Replay(st, t.effects) == st.(rows := if saved then st.rows[k := row] else st.rows,
                                              enabled := if served then st.enabled[m.login := true] else st.enabled)
  {
    hide UniqueRows; hide Find; hide Replay; hide AndThen; hide Update;
    var m := st.rows[k];
    var row := m.(status := Active, paidAt := Some(now), expiresAt := None);
    ReplayNothing(st);
    ReplayOne(st, Enable(m.login));
    UniqueWith(st.rows, k, row);
    SavedAndEnabled(st, k, row, Why.Activated(now), 0, faults);
  }

  // ---------- claims ----------

  /** The columns a poll keeps, and what it makes of the status. */
  ghost predicate OnlyCredited(before: seq<Mailbox>, after: seq<Mailbox>) {
    |after| == |before| && forall j :: 0 <= j < |before| ==>
      && after[j].id == before[j].id && after[j].fingerprint == before[j].fingerprint
      && after[j].session == before[j].session && after[j].paymentUrl == before[j].paymentUrl
      && (after[j].status == before[j].status || after[j].status == Active)
  }

  lemma WriteCredits(st: State, e: Effect)
    requires Legal(st, e) && KindOf(e) in {Charges, Other} && !e.ClearExpiries?
    ensures OnlyCredited(st.rows, Apply(st, e).rows)
  {
    hide AddMonths; hide UniqueRows;
  }

  lemma {:induction false} WritesCredit(st: State, effects: seq<Effect>)
    requires LegalRun(st, effects) && Only(effects, {Charges, Other})
    ensures OnlyCredited(st.rows, Replay(st, effects).rows)
    decreases |effects|
  {
    hide Legal; hide Apply; hide KindOf;
    if effects != [] {
      var n := |effects| - 1;
      assert effects[n] in effects;
      WritesCredit(st, effects[..n]);
      KindIsNotClear(effects[n]);
      WriteCredits(Replay(st, effects[..n]), effects[n]);
    }
  }

  lemma KindIsNotClear(e: Effect)
    requires KindOf(e) in {Charges, Other}
    ensures !e.ClearExpiries?
  {
  }

  /** What a claim owes to its key: access, or a way to get it that is recorded in the row. */
  predicate Served(st: State, row: Mailbox, now: Time) {
    || Usable(row, now)
    || (if st.freeMode then row.status == PendingPayment && HasValidToken(row, now)
        else row.status != Expired && row.session != "" && row.paymentUrl != "")
  }

  /** The row of a key is row k, and it is served. */
  ghost predicate ServedAt(st: State, after: State, c: Claim, k: nat) {
    Find(after.rows, ByFingerprint(c.fingerprint)) == Some(k) && Served(st, after.rows[k], c.now)
  }

  lemma OneWrite(st: State, k: nat, row: Mailbox, why: Why, faults: Faults, fingerprint: string)
    requires fingerprint != "" && row.fingerprint == fingerprint && k < |st.rows|
    ensures var t := Update(st, k, row, why, 0, faults);
            t.ok ==> var after := Replay(st, t.effects);
                     after.rows == st.rows[k := row] && Find(after.rows, ByFingerprint(fingerprint)) == Some(k)
  {
    hide UniqueRows; hide Find;
    ReplayOne(st, Save(k, row, why));
    if Update(st, k, row, why, 0, faults).ok {
      FindUnique(st.rows[k := row], ByFingerprint(fingerprint), k);
    }
  }

  lemma OneInsert(st: State, row: Mailbox, faults: Faults, fingerprint: string)
    requires fingerprint != "" && row.fingerprint == fingerprint
    ensures var t := Create(st, row, false, 0, faults);
            t.ok ==> var after := Replay(st, t.effects);
                     after.rows == st.rows + [row] && UniqueRows(after.rows)
                     && Find(after.rows, ByFingerprint(fingerprint)) == Some(|st.rows|)
  {
    hide UniqueRows; hide Find;
    ReplayOne(st, Insert(row, false));
    if Create(st, row, false, 0, faults).ok {
      FindUnique(st.rows + [row], ByFingerprint(fingerprint), |st.rows|);
    }
  }

  lemma NewKeyRow(st: State, c: Claim, coupon: string, granted: int)
    requires c.fingerprint != ""
    ensures var t := ClaimNew(st, c, coupon, granted);
            t.ok ==> var after := Replay(st, t.effects);
                     && after.rows == st.rows + [PendingRow(st, c, NewMailbox(c, coupon, granted))] &&
                         UniqueRows(after.rows)
                     && after.freeMode == st.freeMode && after.cfg == st.cfg
                     && Find(after.rows, ByFingerprint(c.fingerprint)) == Some(|st.rows|)
  {
    hide UniqueRows; hide Find;
    var row := PendingRow(st, c, NewMailbox(c, coupon, granted));
    OneInsert(st, row, c.faults, c.fingerprint);
    var first := Create(st, row, false, 0, c.faults);
    assert first.effects + [] == first.effects;
    ReplayOne(st, Insert(row, false));
  }

  lemma LinkSent(st: State, k: nat, c: Claim)
    requires k < |st.rows|
    ensures var t := IssueLink(st, k, st.rows[k], c.tokenHash, c.now, c.faults);
            t.ok ==> Replay(st, t.effects).rows == st.rows[k := WithToken(st.rows[k], c.tokenHash, c.now)]
  {
    hide UniqueRows; hide Replay;
    var save := Save(k, WithToken(st.rows[k], c.tokenHash, c.now), Tokened(c.now));
    assert [save] + [] == [save];
    ReplayOne(st, save);
  }

  /** A link sent to a key that has a mailbox. */
  lemma LinkRow(st: State, k: nat, c: Claim)
    requires k < |st.rows| && st.rows[k].fingerprint == c.fingerprint && c.fingerprint != ""
    ensures var t := IssueLink(st, k, st.rows[k], c.tokenHash, c.now, c.faults);
            t.ok ==> var after := Replay(st, t.effects);
                     && after.rows == st.rows[k := WithToken(st.rows[k], c.tokenHash, c.now)]
                     && Find(after.rows, ByFingerprint(c.fingerprint)) == Some(k)
                     && UniqueRows(after.rows)
  {
    hide UniqueRows; hide Find; hide Replay;
    LinkSent(st, k, c);
    var rows := st.rows[k := WithToken(st.rows[k], c.tokenHash, c.now)];
    if UniqueRows(rows) {
      FindUnique(rows, ByFingerprint(c.fingerprint), k);
    }
  }

  /** The paid rest of a claim, after its poll. */
  lemma CheckoutRow(st: State, st1: State, c: Claim, k: nat, coupon: string, granted: int)
    requires LinkAnswers(st, c) && !st.freeMode && st1.cfg == st.cfg && UniqueRows(st1.rows)
    requires k < |st.rows| && OnlyCredited(st.rows, st1.rows) && st.rows[k].fingerprint == c.fingerprint
    requires c.fingerprint != ""
    ensures var t := Reprice(st1, c, k, st.rows[k], coupon, granted);
            t.ok ==> ServedAt(st, Replay(st1, t.effects), c, k)
  {
    hide UniqueRows; hide Find; hide SessionStatus;
    var existing := st.rows[k];
    var t := Reprice(st1, c, k, existing, coupon, granted);
    FindUnique(st1.rows, ByFingerprint(c.fingerprint), k);
    ReplayNothing(st1);
    var row := PricedRow(st1.cfg, c, existing, coupon, granted);
    OneWrite(st1, k, row, Priced(c.now), c.faults, c.fingerprint);
    var first := Update(st1, k, row, Priced(c.now), 0, c.faults);
    assert first.effects + [] == first.effects;
    assert t.ok ==> t.effects == [] || t.effects == first.effects;
  }

  /** The paid claim of a key with an unusable mailbox, with the poll it may trigger. */
  lemma ReclaimServes(st: State, c: Claim, k: nat, coupon: string, granted: int)
    requires Consistent(st) && LinkAnswers(st, c) && !st.freeMode && k < |st.rows| && !Usable(st.rows[k], c.now)
    requires st.rows[k].fingerprint == c.fingerprint && c.fingerprint != ""
    ensures var t := ClaimExisting(st, c, k, coupon, granted);
            t.ok ==> ServedAt(st, Replay(st, t.effects), c, k)
  {
    hide ClaimPoll; hide Reprice; hide Find; hide UniqueRows; hide Consistent; hide LegalRun;
    hide OnlyCredited; hide Only;
    var existing := st.rows[k];
    var poll := if existing.status == PendingPayment then ClaimPoll(st, c) else Failed([]);
    var st1 := Replay(st, poll.effects);
    ClaimPollLegal(st, c);
    ClaimPollKinds(st, c);
    PollOrNothing(st, poll.effects, ClaimPoll(st, c).effects);
    ConsistentUnique(st1);
    CreditedKeeps(st.rows, st1.rows, k);
    FindUnique(st1.rows, ByFingerprint(c.fingerprint), k);
    FindUnique(st1.rows, ById(existing.id), k);
    var rest := Reprice(st1, c, k, existing, coupon, granted);
    ReplayConcat(st, poll.effects, rest.effects);
    CheckoutRow(st, st1, c, k, coupon, granted);
  }

  lemma CreditedKeeps(before: seq<Mailbox>, after: seq<Mailbox>, k: nat)
    requires OnlyCredited(before, after) && k < |before|
    ensures k < |after| && after[k].id == before[k].id && after[k].fingerprint == before[k].fingerprint
    ensures after[k].session == before[k].session && after[k].paymentUrl == before[k].paymentUrl
  {
  }

  lemma PollOrNothing(st: State, effects: seq<Effect>, poll: seq<Effect>)
    requires Consistent(st) && LegalRun(st, poll) && Only(poll, {Charges, Other})
    requires effects == [] || effects == poll
    ensures OnlyCredited(st.rows, Replay(st, effects).rows)
    ensures Consistent(Replay(st, effects)) && Replay(st, effects).cfg == st.cfg
  {
    hide Consistent; hide Legal;
    WritesCredit(st, poll);
    RunKeepsConsistent(st, poll);
    KeepsConfig(st, effects);
  }

  lemma {:induction false} KeepsConfig(st: State, effects: seq<Effect>)
    ensures Replay(st, effects).cfg == st.cfg
    decreases |effects|
  {
    if effects != [] {
      KeepsConfig(st, effects[..|effects| - 1]);
    }
  }

  /**
   * A claim that succeeds leaves the key with a usable mailbox, or with a
   * token or a checkout in its row that leads to one, whatever its poll did
   * and wherever the poll failed.
   */
  lemma ClaimServes(st: State, c: Claim)
    requires Consistent(st) && LinkAnswers(st, c) && ClaimMailbox(st, c).ok
    ensures var after := Replay(st, ClaimMailbox(st, c).effects);
            exists k :: ServedAt(st, after, c, k)
  {
    hide ClaimNew; hide Reprice; hide IssueLink; hide ClaimPoll; hide UniqueRows; hide Replay; hide Find;
    var coupon := if st.freeMode then "" else c.coupon;
    var granted := ValidateCoupon(st.cfg, coupon).value;
    var after := Replay(st, ClaimMailbox(st, c).effects);
    match Find(st.rows, ByFingerprint(c.fingerprint))
    case None =>
      NewKeyRow(st, c, coupon, granted);
      assert ServedAt(st, after, c, |st.rows|);
    case Some(k) =>
      if Usable(st.rows[k], c.now) {
        ReplayNothing(st);
      } else if st.freeMode {
        LinkRow(st, k, c);
      } else {
        ReclaimServes(st, c, k, coupon, granted);
      }
      assert ServedAt(st, after, c, k);
  }

  /**
   * The row of the key is the one the claim returned, or it was credited by the
   * claim's own poll after the copy was read.
   */
  ghost predicate ReturnedAt(st: State, after: State, c: Claim, k: nat) {
    Find(after.rows, ByFingerprint(c.fingerprint)) == Some(k) &&
    var row, copy := after.rows[k], Returned(st, c);
    row == copy || (k < |st.rows| && copy == st.rows[k] && KeepsCheckout(st.cfg, c, copy)
                    && row.session == copy.session && row.paymentUrl == copy.paymentUrl)
  }

  /**
   * What a successful claim returns is what is stored, with one exception: a
   * copy whose checkout stays in use is returned as it was read, even if the
   * claim's poll changed its row. The checkout in it is still the row's.
   */
  lemma ClaimReturnsStored(st: State, c: Claim)
    requires Consistent(st) && LinkAnswers(st, c) && ClaimMailbox(st, c).ok
    ensures var after := Replay(st, ClaimMailbox(st, c).effects);
            exists k :: ReturnedAt(st, after, c, k)
  {
    hide ClaimNew; hide ClaimExisting; hide ReturnedExisting; hide UniqueRows; hide Replay; hide Find;
    hide KeepsCheckout;
    var coupon := if st.freeMode then "" else c.coupon;
    var granted := ValidateCoupon(st.cfg, coupon).value;
    var after := Replay(st, ClaimMailbox(st, c).effects);
    match Find(st.rows, ByFingerprint(c.fingerprint))
    case None =>
      NewKeyRow(st, c, coupon, granted);
      assert ReturnedAt(st, after, c, |st.rows|);
    case Some(k) =>
      ExistingReturned(st, c, k, coupon, granted);
      assert ReturnedAt(st, after, c, k);
  }

  lemma ExistingReturned(st: State, c: Claim, k: nat, coupon: string, granted: int)
    requires Consistent(st) && LinkAnswers(st, c) && c.fingerprint != ""
    requires Find(st.rows, ByFingerprint(c.fingerprint)) == Some(k)
    ensures var t := ClaimExisting(st, c, k, coupon, granted);
            var copy := ReturnedExisting(st, c, k, coupon, granted);
            var after := Replay(st, t.effects);
            t.ok ==> Find(after.rows, ByFingerprint(c.fingerprint)) == Some(k) &&
                     var row := after.rows[k];
                     row == copy || (copy == st.rows[k] && KeepsCheckout(st.cfg, c, copy)
                                     && row.session == copy.session && row.paymentUrl == copy.paymentUrl)
  {
    hide ClaimPoll; hide Reprice; hide IssueLink; hide UniqueRows; hide Replay; hide Find; hide KeepsCheckout;
    hide OnlyCredited; hide Only; hide LegalRun; hide Consistent;
    var existing := st.rows[k];
    if Usable(existing, c.now) {
      ReplayNothing(st);
    } else if st.freeMode {
      LinkRow(st, k, c);
    } else {
      var poll := if existing.status == PendingPayment then ClaimPoll(st, c) else Failed([]);
      var st1 := Replay(st, poll.effects);
      ClaimPollLegal(st, c);
      ClaimPollKinds(st, c);
      PollOrNothing(st, poll.effects, ClaimPoll(st, c).effects);
      ConsistentUnique(st1);
      CreditedKeeps(st.rows, st1.rows, k);
      FindUnique(st1.rows, ByFingerprint(c.fingerprint), k);
      FindUnique(st1.rows, ById(existing.id), k);
      ReplayConcat(st, poll.effects, Reprice(st1, c, k, existing, coupon, granted).effects);
      RepricedRow(st1, c, k, existing, coupon, granted);
    }
  }

  /** The end of a paid claim writes nothing, or the copy with its new checkout. */
  lemma RepricedRow(st: State, c: Claim, k: nat, existing: Mailbox, coupon: string, granted: int)
    requires existing.fingerprint == c.fingerprint && c.fingerprint != ""
    requires k < |st.rows| && Find(st.rows, ByFingerprint(c.fingerprint)) == Some(k)
    ensures var t := Reprice(st, c, k, existing, coupon, granted);
            var after := Replay(st, t.effects);
            t.ok ==> Find(after.rows, ByFingerprint(c.fingerprint)) == Some(k)
                     && (if KeepsCheckout(st.cfg, c, existing) then after == st
                         else after.rows[k] == PricedRow(st.cfg, c, existing, coupon, granted))
  {
    hide UniqueRows; hide Find; hide SessionStatus; hide Replay; hide PricedRow;
    var row := PricedRow(st.cfg, c, existing, coupon, granted);
    ReplayNothing(st);
    PricedKeepsKey(st.cfg, c, existing, coupon, granted);
    OneWrite(st, k, row, Priced(c.now), c.faults, c.fingerprint);
    var first := Update(st, k, row, Priced(c.now), 0, c.faults);
    assert first.effects + [] == first.effects;
  }

  lemma PricedKeepsKey(cfg: Config, c: Claim, existing: Mailbox, coupon: string, granted: int)
    ensures PricedRow(cfg, c, existing, coupon, granted).fingerprint == existing.fingerprint
  {
  }

  // ---------- account-bound mailboxes ----------

  predicate Subscribed(st: State, account: string, now: Time) {
    !st.freeMode && account in st.accounts && After(st.accounts[account], now)
  }

  /** A row of the account: active for the time of its subscription, or pending with a way to activate it. */
  ghost predicate AccountServed(st: State, after: State, account: string, now: Time, k: nat) {
    k < |after.rows| && after.rows[k].accountId == account &&
    var row := after.rows[k];
    if Subscribed(st, account, now) then
      row.status == Active && row.expiresAt == st.accounts[account] && IsEnabled(after, row.login)
    else
      row.status == PendingPayment &&
      if st.freeMode then HasValidToken(row, now) else row.session != "" && row.paymentUrl != ""
  }

  /** A pending row that got its link in free mode and has no checkout. */
  predicate Stranded(st: State, account: string, now: Time) {
    && !st.freeMode && !Subscribed(st, account, now)
    && var pending := Find(st.rows, PendingOf(account));
       pending.Some? && st.rows[pending.value].session == ""
  }

  /**
   * CreateMailbox serves its account, except for an account that is left with
   * a pending row of free mode when paid mode returns: that row is handed out
   * as it is, without a checkout.
   */
  lemma CreationServes(st: State, account: string, c: Claim)
    requires Consistent(st) && LinkAnswers(st, c) && CreateMailbox(st, account, c).ok
    ensures var after := Replay(st, CreateMailbox(st, account, c).effects);
            && (Stranded(st, account, c.now) ==> after == st)
            && (!Stranded(st, account, c.now) ==> exists k :: AccountServed(st, after, account, c.now, k))
  {
    hide UniqueRows; hide Replay; hide Find;
    var after := Replay(st, CreateMailbox(st, account, c).effects);
    var pending := Find(st.rows, PendingOf(account));
    ReplayNothing(st);
    if Subscribed(st, account, c.now) {
      var row := NewMailbox(c, "", 0).(accountId := account, fingerprint := "", status := Active,
                                       paidAt := Some(c.now), expiresAt := st.accounts[account]);
      ReplayTwo(st, Insert(row, false), Enable(row.login));
      assert [Insert(row, false)] + [Enable(row.login)] == [Insert(row, false), Enable(row.login)];
      assert AccountServed(st, after, account, c.now, |st.rows|);
    } else if pending.None? {
      PendingCreated(st, c, NewMailbox(c, "", 0).(accountId := account, fingerprint := ""));
      assert AccountServed(st, after, account, c.now, |st.rows|);
    } else if st.freeMode {
      LinkSent(st, pending.value, c);
      assert AccountServed(st, after, account, c.now, pending.value);
    } else {
      assert Stranded(st, account, c.now) || AccountServed(st, after, account, c.now, pending.value);
    }
  }

  /** The new row of an account: active for a subscription, with a token in free mode, or with a checkout. */
  function AccountRow(st: State, account: string, c: Claim): Mailbox {
    var subscribed := !st.freeMode && account in st.accounts && st.accounts[account].Some? &&
                      c.now < st.accounts[account].value;
    var m := Mailbox(c.id, account, "", c.login, c.accessToken, "", "", "", None, "", None, PendingPayment, 0, false,
                     None, None);
    if subscribed then m.(status := Active, paidAt := Some(c.now), expiresAt := st.accounts[account])
    else if st.freeMode then m.(tokenHash := c.tokenHash, tokenExpiresAt := Some(c.now + 24 * HOUR))
    else m.(session := if st.cfg.openCollective then CheckoutTag(c.id) else c.newSession, paymentUrl := c.newUrl)
  }

  /** Access token and password are drawn, and so is the link's token in free mode; in paid mode there is a checkout. */
  predicate Drawn(st: State, c: Claim) {
    && Call(Token, 1) !in c.faults && Call(Token, 2) !in c.faults
    && (if st.freeMode then Call(Token, 0) else Call(Gateway, 1)) !in c.faults
  }

  /** The mail with the link or the checkout goes out: in free mode only if links have an address. */
  predicate Mailed(st: State, c: Claim) {
    Call(Mail, 0) !in c.faults && (st.freeMode ==> st.cfg.publicBaseUrl != "")
  }

  /** The row with a new link. */
  function Linked(m: Mailbox, c: Claim): Mailbox {
    m.(tokenHash := c.tokenHash, tokenExpiresAt := Some(c.now + 24 * HOUR), status := PendingPayment,
       session := "", paymentUrl := "")
  }

  /**
   * CreateMailbox, written out. A subscribed account gets an active mailbox,
   * enabled after it is stored; any other has at most one pending mailbox,
   * which gets a new link in free mode and is handed out as it is in paid
   * mode. The row is stored before the mail goes out.
   */
  lemma CreationExactly(st: State, account: string, c: Claim)
    requires UniqueRows(st.rows) && UniqueRows(st.rows + [AccountRow(st, account, c)])
    ensures var t := CreateMailbox(st, account, c);
            var row := AccountRow(st, account, c);
            var pending := Find(st.rows, PendingOf(account));
            var stores := Call(RowWrite, 0) !in c.faults;
            var serves := Call(Provision, 0) !in c.faults;
            if account == "" then !t.ok && t.effects == []
            else if row.status == Active then
              var stored := Call(Token, 1) !in c.faults && Call(Token, 2) !in c.faults && stores;
              && (t.ok <==> stored && serves)
              && t.effects == if stored && serves then [Insert(row, false), Enable(c.login)]
                              else if stored then [Insert(row, false)] else []
            else if Call(Lookup, 0) in c.faults then !t.ok && t.effects == []
            else if pending.None? then
              && (t.ok <==> Drawn(st, c) && stores && Mailed(st, c))
              && t.effects == if Drawn(st, c) && stores then [Insert(row, false)] else []
            else if st.freeMode then
              var linked := Linked(st.rows[pending.value], c);
              var stored := Call(Token, 0) !in c.faults && stores;
              && (t.ok <==> stored && Mailed(st, c))
              && t.effects == if stored then [Save(pending.value, linked, Tokened(c.now))] else []
            else t == Trace([], true, 0)
  {
    hide UniqueRows; hide Find;
    var row := AccountRow(st, account, c);
    var insert, enable := Insert(row, false), Enable(c.login);
    assert [insert] + [] == [insert] && [insert] + [enable] == [insert, enable];
    var pending := Find(st.rows, PendingOf(account));
    if pending.Some? {
      var linked := Linked(st.rows[pending.value], c);
      UniqueWithout(st.rows, pending.value, linked);
      assert [Save(pending.value, linked, Tokened(c.now))] + [] == [Save(pending.value, linked, Tokened(c.now))];
    }
  }

  /** The mailbox handed out is a stored row, and it is called new exactly when the table has grown by it. */
  ghost predicate HandedOut(st: State, after: State, mailbox: Mailbox, isNew: bool, k: nat) {
    && k < |after.rows| && after.rows[k] == mailbox
    && (if isNew then k == |st.rows| else |after.rows| == |st.rows|)
  }

  /** What a successful CreateMailbox returns is what is stored. */
  lemma CreationReturnsStored(st: State, account: string, c: Claim)
    requires CreateMailbox(st, account, c).ok
    ensures var after := Replay(st, CreateMailbox(st, account, c).effects);
            var (mailbox, isNew) := CreationReturned(st, account, c);
            exists k :: HandedOut(st, after, mailbox, isNew, k)
  {
    hide UniqueRows; hide Replay; hide Find;
    var after := Replay(st, CreateMailbox(st, account, c).effects);
    var (mailbox, isNew) := CreationReturned(st, account, c);
    var pending := Find(st.rows, PendingOf(account));
    ReplayNothing(st);
    if Subscribed(st, account, c.now) {
      ReplayTwo(st, Insert(mailbox, false), Enable(c.login));
      assert [Insert(mailbox, false)] + [Enable(c.login)] == [Insert(mailbox, false), Enable(c.login)];
      assert HandedOut(st, after, mailbox, isNew, |st.rows|);
    } else if pending.None? {
      PendingCreated(st, c, NewMailbox(c, "", 0).(accountId := account, fingerprint := ""));
      assert HandedOut(st, after, mailbox, isNew, |st.rows|);
    } else {
      LinkSent(st, pending.value, c);
      assert HandedOut(st, after, mailbox, isNew, pending.value);
    }
  }

  lemma PendingCreated(st: State, c: Claim, m: Mailbox)
    ensures var t := CreatePending(st, c, m);
            t.ok ==> Replay(st, t.effects).rows == st.rows + [PendingRow(st, c, m)]
  {
    hide UniqueRows; hide Replay;
    var row := PendingRow(st, c, m);
    assert [Insert(row, false)] + [] == [Insert(row, false)];
    ReplayOne(st, Insert(row, false));
  }

  // ---------- end to end ----------

  /** No row carries the new token yet. */
  ghost predicate FreshToken(st: State, hash: string) {
    forall j :: 0 <= j < |st.rows| ==> st.rows[j].tokenHash != hash
  }

  /** A free-mode claim leaves its token on the row of its key alone. */
  lemma FreeClaimRow(st: State, c: Claim) returns (k: nat)
    requires Consistent(st) && LinkAnswers(st, c) && st.freeMode && ClaimMailbox(st, c).ok
    requires FreshToken(st, c.tokenHash)
    requires forall j :: 0 <= j < |st.rows| && st.rows[j].fingerprint == c.fingerprint ==> !Usable(st.rows[j], c.now)
    ensures var after := Replay(st, ClaimMailbox(st, c).effects);
            && UniqueRows(after.rows) && k < |after.rows|
            && Find(after.rows, ByFingerprint(c.fingerprint)) == Some(k)
            && Find(after.rows, ByTokenHash(c.tokenHash)) == Some(k)
            && var row := after.rows[k];
               row.status == PendingPayment && row.session == "" && row.tokenExpiresAt == Some(c.now + ACTIVATION_TTL)
  {
    hide ClaimNew; hide IssueLink; hide UniqueRows; hide Replay;
    var found := Find(st.rows, ByFingerprint(c.fingerprint));
    var after := Replay(st, ClaimMailbox(st, c).effects);
    if found.None? {
      k := |st.rows|;
      NewKeyRow(st, c, "", 0);
    } else {
      k := found.value;
      LinkRow(st, k, c);
    }
    OnlyToken(after.rows, k, c.tokenHash);
  }

  lemma OnlyToken(rows: seq<Mailbox>, k: nat, hash: string)
    requires k < |rows| && forall j :: 0 <= j < |rows| ==> (rows[j].tokenHash == hash <==> j == k)
    ensures Find(rows, ByTokenHash(hash)) == Some(k)
  {
    assert Matches(rows[k], ByTokenHash(hash));
    var r := Find(rows, ByTokenHash(hash)).value;
    assert Matches(rows[r], ByTokenHash(hash));
  }

  ghost predicate GrantedAt(st: State, k: nat) {
    k < |st.rows| && Permanent(st.rows[k]) && IsEnabled(st, st.rows[k].login)
  }

  /**
   * A key claims in free mode and follows the link: exactly within the
   * lifetime of the token it gets an enabled mailbox that is permanent in the
   * sense of PermanentForever, and after it nothing changes.
   */
  lemma ClaimThenActivate(st: State, c: Claim, later: Time)
    requires Consistent(st) && LinkAnswers(st, c) && st.freeMode && ClaimMailbox(st, c).ok
    requires FreshToken(st, c.tokenHash)
    requires forall j :: 0 <= j < |st.rows| && st.rows[j].fingerprint == c.fingerprint ==> !Usable(st.rows[j], c.now)
    ensures var claimed := Replay(st, ClaimMailbox(st, c).effects);
            var t := Activate(claimed, c.tokenHash, later, {});
            var after := Replay(claimed, t.effects);
            && (t.ok <==> later < c.now + ACTIVATION_TTL)
            && (t.ok ==> exists k :: Find(claimed.rows, ByFingerprint(c.fingerprint)) == Some(k) && GrantedAt(after, k))
            && (!t.ok ==> after == claimed)
  {
    hide ClaimMailbox; hide UniqueRows; hide Find; hide Activate; hide Replay;
    var claimed := Replay(st, ClaimMailbox(st, c).effects);
    var k := FreeClaimRow(st, c);
    ActivationExactlyWhen(claimed, k, c.tokenHash, later, {});
    ReplayNothing(claimed);
    var after := Replay(claimed, Activate(claimed, c.tokenHash, later, {}).effects);
    if Activate(claimed, c.tokenHash, later, {}).ok {
      assert after.rows[k].login == claimed.rows[k].login;
    }
  }

  /** A charge on a pending key-bound row, without failures. */
  lemma PaymentSucceeds(st: State, k: nat, c: Charge)
    requires UniqueRows(st.rows) && !st.freeMode && k < |st.rows| && st.rows[k].KeyBound()
    requires st.rows[k].status == PendingPayment
    requires Find(st.rows, BySession(c.tag)) == Some(k) && !Settled(st.rows[k], c)
    ensures var t := CreditCharge(st, c, 0, {});
            t.ok && t.count == 1 && Replay(st, t.effects).rows == st.rows[k := CreditRow(st.rows[k], c)]
  {
    hide AddMonths; hide UniqueRows; hide Find;
    var m := st.rows[k];
    var row := CreditRow(m, c);
    UniqueWith(st.rows, k, row);
    var why := Paid(Some(c), Later(c.at, m.expiresAt), MonthsGranted(m));
    assert [Save(k, row, why)] + [Enable(m.login)] == [Save(k, row, why), Enable(m.login)];
    assert CreditCharge(st, c, 0, {}).effects == [Save(k, row, why), Enable(m.login)];
    ReplayTwo(st, Save(k, row, why), Enable(m.login));
  }

  /**
   * A new key claims in paid mode and a charge arrives under the tag of its
   * checkout: the next poll gives it one month from the charge, or three with
   * an accepted coupon, and an enabled login.
   */
  lemma ClaimThenCharge(st: State, c: Claim, chargeId: string, at: Time)
    requires Consistent(st) && LinkAnswers(st, c) && !st.freeMode && st.cfg.openCollective && ClaimMailbox(st, c).ok
    requires Find(st.rows, ByFingerprint(c.fingerprint)).None? && chargeId != ""
    ensures var claimed := Replay(st, ClaimMailbox(st, c).effects);
            var poll := Poll(claimed, Some([Charge(CheckoutTag(c.id), chargeId, at)]), {});
            var after := Replay(claimed, poll.effects);
            && poll.ok && poll.count == 1 && |after.rows| == |st.rows| + 1 && after.rows[..|st.rows|] == st.rows
            && var row := after.rows[|st.rows|];
               && row.fingerprint == c.fingerprint && row.status == Active && row.paidAt == Some(at)
               && row.expiresAt == Some(AddMonths(at, if c.coupon == "" then 1 else GIFT_MONTHS))
               && IsEnabled(after, row.login)
  {
    hide ClaimNew; hide UniqueRows; hide Find; hide Replay; hide CreditCharge; hide AddMonths; hide PollPrefix;
    var claimed := Replay(st, ClaimMailbox(st, c).effects);
    var k := |st.rows|;
    var charge := Charge(CheckoutTag(c.id), chargeId, at);
    NewKeyRow(st, c, c.coupon, ValidateCoupon(st.cfg, c.coupon).value);
    FindUnique(claimed.rows, BySession(charge.tag), k);
    PaymentSucceeds(claimed, k, charge);
    CreditEnables(claimed, k, charge, 0, {});
    PollOfOne(claimed, charge, {});
  }
}
