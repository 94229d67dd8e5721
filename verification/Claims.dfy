/** Claims of a key, written out: which are accepted, what they leave in the table, and when they poll. */
module Claims {
  import opened Calendar
  import opened Domain
  import opened Lifecycle
  import opened PollSteps
  import opened Legality
  import opened CallLegality
  import opened Runs
  import opened Onboarding

  // ---------- coupons ----------

  /** No coupon is asked for in free mode; in paid mode it is blank, or the one configured with a discount. */
  predicate CouponAccepted(st: State, c: Claim) {
    || st.freeMode || c.coupon == ""
    || (c.coupon == st.cfg.couponCode && st.cfg.couponCode != "" && st.cfg.discountId != "")
  }

  /** What the claim asks for: an address with an @, a key, and an accepted coupon. */
  predicate Proper(st: State, c: Claim) {
    '@' in c.email && c.fingerprint != "" && CouponAccepted(st, c)
  }

  /**
   * Whatever fails and whatever is stored: an improper claim writes nothing,
   * and no coupon counts but the configured one.
   */
  lemma CouponDecides(st: State, c: Claim)
    ensures !Proper(st, c) ==> !ClaimMailbox(st, c).ok && ClaimMailbox(st, c).effects == []
    ensures ClaimMailbox(st, c).ok && !st.freeMode && c.coupon != "" ==>
              c.coupon == st.cfg.couponCode && st.cfg.couponCode != "" && st.cfg.discountId != ""
  {
    hide ClaimNew; hide ClaimExisting; hide Find;
  }

  // ---------- new keys ----------

  /** The row of a new key: with a token in free mode; with a checkout, and the gift for a coupon, in paid mode. */
  function FirstRow(st: State, c: Claim): Mailbox {
    if st.freeMode then
      Mailbox(c.id, "", c.fingerprint, c.login, c.accessToken, "", "", "", None,
              c.tokenHash, Some(c.now + 24 * HOUR), PendingPayment, 0, false, None, None)
    else
      Mailbox(c.id, "", c.fingerprint, c.login, c.accessToken,
              if st.cfg.openCollective then CheckoutTag(c.id) else c.newSession, c.newUrl, "", None,
              "", None, PendingPayment, if c.coupon != "" then 3 else 0, c.coupon != "", None, None)
  }

  /**
   * A new key gets its row exactly for a proper claim whose tokens are drawn and
   * whose row is stored, and the claim succeeds when the mail goes out as well.
   */
  lemma NewKeyClaims(st: State, c: Claim)
    requires Find(st.rows, ByFingerprint(c.fingerprint)).None? && UniqueRows(st.rows + [FirstRow(st, c)])
    ensures var t := ClaimMailbox(st, c);
            var stored := Proper(st, c) && Call(Lookup, 0) !in c.faults && Drawn(st, c) &&
                          Call(RowWrite, 0) !in c.faults;
            && (t.ok <==> stored && Mailed(st, c))
            && t.effects == if stored then [Insert(FirstRow(st, c), false)] else []
  {
    hide UniqueRows; hide Find;
    var first := [Insert(FirstRow(st, c), false)];
    assert first + [] == first;
  }

  // ---------- keys that have a mailbox ----------

  /** The key's row, found by a proper claim. */
  ghost predicate Claimant(st: State, c: Claim, k: nat) {
    && Consistent(st) && Proper(st, c) && Call(Lookup, 0) !in c.faults
    && Find(st.rows, ByFingerprint(c.fingerprint)) == Some(k)
  }

  predicate InUse(m: Mailbox, now: Time) {
    m.status == Active && m.paidAt.Some? && (m.expiresAt.None? || now < m.expiresAt.value)
  }

  /**
   * A key with a mailbox in use has nothing to claim; in free mode any other
   * mailbox gets a new link, and then the mail goes out.
   */
  lemma FreeReclaims(st: State, c: Claim, k: nat)
    requires Claimant(st, c, k)
    ensures InUse(st.rows[k], c.now) ==> ClaimMailbox(st, c) == Trace([], true, 0)
    ensures !InUse(st.rows[k], c.now) && st.freeMode ==>
              var t := ClaimMailbox(st, c);
              var stored := Call(Token, 0) !in c.faults && Call(RowWrite, 0) !in c.faults;
              && (t.ok <==> stored && Mailed(st, c))
              && t.effects == if stored then [Save(k, Linked(st.rows[k], c), Tokened(c.now))] else []
  {
    hide UniqueRows; hide Find;
    var row := Linked(st.rows[k], c);
    UniqueWithout(st.rows, k, row);
    var first := [Save(k, row, Tokened(c.now))];
    assert first + [] == first;
  }

  /** A claim polls for a pending mailbox of Open Collective, once in thirty seconds. */
  predicate PollDue(st: State, c: Claim, m: Mailbox) {
    st.cfg.openCollective && m.status == PendingPayment && c.now - st.lastClaimPoll >= 30 * SECOND
  }

  /** The state after the claim's own poll, or without one. */
  function Looked(st: State, c: Claim, m: Mailbox): State {
    if PollDue(st, c, m) then
      Replay(st.(lastClaimPoll := c.now), Poll(st.(lastClaimPoll := c.now), c.feed, c.pollFaults).effects)
    else st
  }

  /** The claim's own poll went through, credited a charge, and the mailbox, read again, is in use now. */
  predicate PaidMeanwhile(st: State, c: Claim, k: nat)
    requires k < |st.rows|
  {
    var m := st.rows[k];
    var poll := Poll(st.(lastClaimPoll := c.now), c.feed, c.pollFaults);
    var rows := Looked(st, c, m).rows;
    && PollDue(st, c, m) && poll.ok && poll.count > 0 && Call(Lookup, 1) !in c.faults
    && k < |rows| && InUse(rows[k], c.now)
  }

  /** What becomes of the checkout in the row. */
  datatype Checkout = Kept | Replaced | Undecided

  /** Open Collective keeps a tag of its own for ever; another gateway says whether the session is still good. */
  function CheckoutOf(cfg: Config, c: Claim, m: Mailbox): Checkout {
    if m.status != PendingPayment || m.session == "" || m.paymentUrl == "" then Replaced
    else if Call(Gateway, 0) in c.faults then Undecided
    else if cfg.openCollective then (if "tva-" <= m.session then Kept else Replaced)
    else if m.session !in c.replies || c.replies[m.session] == GatewayError then Undecided
    else if c.replies[m.session] in {Open, Confirmed, Succeeded} then Kept
    else Replaced
  }

  /** The row with a new checkout: three months for a coupon, whose use it marks. */
  function Repriced(cfg: Config, c: Claim, m: Mailbox): Mailbox {
    m.(session := if cfg.openCollective then CheckoutTag(m.id) else c.newSession, paymentUrl := c.newUrl,
       status := PendingPayment, grantedMonths := if c.coupon != "" then 3 else 0,
       couponUsed := m.couponUsed || c.coupon != "")
  }

  /** The new checkout is made and its row stored; then it is mailed. */
  ghost predicate CheckedOut(st: State, after: State, k: nat, m: Mailbox, c: Claim, ok: bool) {
    var stored := Call(Gateway, 1) !in c.faults && Call(RowWrite, 0) !in c.faults;
    && k < |st.rows|
    && (ok <==> stored && Call(Mail, 0) !in c.faults)
    && after == if stored then st.(rows := st.rows[k := Repriced(st.cfg, c, m)]) else st
  }

  /**
   * The paid claim of a key whose mailbox is not in use, written out. The poll
   * goes first; a coupon is refused to a row that had one; a checkout that is
   * still good stays, and one that is not is replaced.
   */
  lemma PaidReclaims(st: State, c: Claim, k: nat)
    requires Claimant(st, c, k) && !st.freeMode && !InUse(st.rows[k], c.now)
    requires var looked := Looked(st, c, st.rows[k]);
             k < |looked.rows| && UniqueRows(looked.rows[k := Repriced(st.cfg, c, st.rows[k])])
    ensures var m := st.rows[k];
            var looked := Looked(st, c, m);
            var t := ClaimMailbox(st, c);
            var after := Replay(st, t.effects);
            if PaidMeanwhile(st, c, k) then t.ok && after == looked
            else if c.coupon != "" && m.couponUsed then !t.ok && after == looked
            else match CheckoutOf(st.cfg, c, m)
                 case Undecided => !t.ok && after == looked
                 case Kept => t.ok && after == looked
                 case Replaced => CheckedOut(looked, after, k, m, c, t.ok)
  {
    hide ClaimPoll; hide Reprice; hide UniqueRows; hide Consistent; hide Find; hide Poll; hide Looked; hide Replay;
    hide Repriced; hide CheckoutOf; hide OnlyCredited; hide CheckedOut;
    var m := st.rows[k];
    var poll := if m.status == PendingPayment then ClaimPoll(st, c) else Failed([]);
    var looked := Looked(st, c, m);
    LooksFirst(st, c, m);
    ClaimPollLegal(st, c);
    ClaimPollKinds(st, c);
    PollOrNothing(st, poll.effects, ClaimPoll(st, c).effects);
    ConsistentUnique(looked);
    CreditedKeeps(st.rows, looked.rows, k);
    FindUnique(looked.rows, ById(m.id), k);
    var coupon, granted := c.coupon, if c.coupon != "" then 3 else 0;
    ReplayNothing(looked);
    ReplayConcat(st, poll.effects, Reprice(looked, c, k, m, coupon, granted).effects);
    RepriceExactly(looked, c, k, m);
  }

  /** The poll of a claim is due, or there is none. */
  lemma LooksFirst(st: State, c: Claim, m: Mailbox)
    ensures var poll := if m.status == PendingPayment then ClaimPoll(st, c) else Failed([]);
            var alone := Poll(st.(lastClaimPoll := c.now), c.feed, c.pollFaults);
            && Replay(st, poll.effects) == Looked(st, c, m)
            && (poll.ok <==> PollDue(st, c, m) && alone.ok && alone.count > 0)
            && (poll.effects == [] || poll.effects == ClaimPoll(st, c).effects)
  {
    hide Poll; hide Replay;
    var polled := Polled(c.now);
    var alone := Poll(st.(lastClaimPoll := c.now), c.feed, c.pollFaults);
    ReplayNothing(st);
    ReplayOne(st, polled);
    ReplayConcat(st, [polled], alone.effects);
  }

  lemma RepriceExactly(st: State, c: Claim, k: nat, m: Mailbox)
    requires k < |st.rows| && UniqueRows(st.rows[k := Repriced(st.cfg, c, m)])
    ensures var t := Reprice(st, c, k, m, c.coupon, if c.coupon != "" then 3 else 0);
            var after := Replay(st, t.effects);
            if c.coupon != "" && m.couponUsed then !t.ok && after == st
            else match CheckoutOf(st.cfg, c, m)
                 case Undecided => !t.ok && after == st
                 case Kept => t.ok && after == st
                 case Replaced => CheckedOut(st, after, k, m, c, t.ok)
  {
    hide UniqueRows; hide Replay;
    var save := Save(k, Repriced(st.cfg, c, m), Priced(c.now));
    ReplayNothing(st);
    ReplayOne(st, save);
    assert [save] + [] == [save];
  }

  // ---------- when claims poll ----------

  /** A claim starts with a poll exactly for a proper claim of a mailbox not in use whose poll is due. */
  lemma ClaimPollsExactlyWhen(st: State, c: Claim)
    ensures var t := ClaimMailbox(st, c);
            var found := Find(st.rows, ByFingerprint(c.fingerprint));
            t.effects != [] && t.effects[0] == Polled(c.now) <==>
              && !st.freeMode && Proper(st, c) && Call(Lookup, 0) !in c.faults
              && found.Some? && !InUse(st.rows[found.value], c.now) && PollDue(st, c, st.rows[found.value])
  {
    hide Find; hide UniqueRows; hide Poll; hide Replay;
  }

  /** The time of the last poll never goes back, and the next is half a minute away from it. */
  lemma WriteMovesPoll(st: State, e: Effect)
    requires Legal(st, e)
    ensures st.lastClaimPoll <= Apply(st, e).lastClaimPoll
    ensures e.Polled? ==> st.lastClaimPoll + 30 * SECOND <= e.at == Apply(st, e).lastClaimPoll
  {
    hide UniqueRows; hide LegalSave; hide LegalInsert;
  }

  lemma {:induction false} PollRemembered(st: State, effects: seq<Effect>, i: nat)
    requires LegalRun(st, effects) && i < |effects| && effects[i].Polled?
    ensures effects[i].at <= Replay(st, effects).lastClaimPoll
    decreases |effects|
  {
    hide Legal; hide Apply;
    var n := |effects| - 1;
    WriteMovesPoll(Replay(st, effects[..n]), effects[n]);
    if i < n {
      PollRemembered(st, effects[..n], i);
    }
  }

  /** Over any run, the polls of all claims are half a minute apart, and only Open Collective is polled. */
  lemma ClaimPollsApart(st: State, ops: seq<Op>, i: nat, j: nat)
    requires Consistent(st) && i < j < |Journal(st, ops)|
    requires Journal(st, ops)[i].Polled? && Journal(st, ops)[j].Polled?
    ensures Journal(st, ops)[i].at + 30 * SECOND <= Journal(st, ops)[j].at
    ensures st.cfg.openCollective
  {
    hide Journal; hide Legal; hide Consistent;
    var all := Journal(st, ops);
    RunLegal(st, ops);
    LegalPrefix(st, all, j);
    PollRemembered(st, all[..j], i);
    LegalPrefix(st, all, j + 1);
    assert all[..j + 1][..j] == all[..j];
    WriteMovesPoll(Replay(st, all[..j]), all[j]);
    PollNeedsFeed(Replay(st, all[..j]), all[j]);
    KeepsConfig(st, all[..j]);
  }

  lemma PollNeedsFeed(st: State, e: Effect)
    requires Legal(st, e) && e.Polled?
    ensures st.cfg.openCollective
  {
  }
}
