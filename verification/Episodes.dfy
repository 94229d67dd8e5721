/** Whole stories from an empty table, call by call: runs that reach what other theorems have to exclude. */
module Episodes {
  import opened Calendar
  import opened Domain
  import opened Lifecycle
  import opened Legality
  import opened Runs
  import opened Gift
  import opened FreeActivation
  import opened Signals
  import opened Access
  import opened Onboarding

  /** A table with one row, which is found by its session. */
  ghost predicate Only1(st: State, m: Mailbox) {
    st.rows == [m] && m.KeyBound() && m.session != ""
  }

  lemma OneRow(st: State, m: Mailbox)
    requires st.rows == [m]
    ensures UniqueRows(st.rows)
    ensures Find(st.rows, BySession(m.session)) == Some(0) && Find(st.rows, ByFingerprint(m.fingerprint)) == Some(0)
    ensures Find(st.rows, ByTokenHash(m.tokenHash)) == Some(0)
  {
  }

  lemma {:induction false} NoGifts(effects: seq<Effect>, k: nat, kinds: set<Kind>)
    requires Only(effects, kinds) && Charges !in kinds && PaysNow !in kinds
    ensures Gifts(effects, k) == 0
    decreases |effects|
  {
    if effects != [] {
      var n := |effects| - 1;
      assert effects[n] in effects;
      NoGifts(effects[..n], k, kinds);
    }
  }

  // ---------- a gift given twice ----------

  /** A signal gives the gift to a row that still has the gift months and is not active. */
  lemma SignalGives(st: State, m: Mailbox, now: Time)
    requires Only1(st, m) && !st.freeMode && m.status != Active && m.grantedMonths == GIFT_MONTHS
    ensures var t := Serve(st, Paying(m.session, now, {}));
            var after := Replay(st, t.effects);
            && Gifts(t.effects, 0) == 1 && Only1(after, Credited(m, now, GIFT_MONTHS)) && !after.freeMode
  {
    hide AddMonths; hide UniqueRows; hide Find;
    OneRow(st, m);
    SignalPays(st, 0, now, 0, {});
    var row := Credited(m, now, GIFT_MONTHS);
    UniqueWith(st.rows, 0, row);
    var e := Save(0, row, Paid(None, Later(now, m.expiresAt), GIFT_MONTHS));
    var t := MarkPaid(st, m.session, None, now, 0, {});
    assert t.effects == [e, Enable(m.login)];
    MarkPaidQuiet(st, m.session, None, now, 0, {});
    ModeKept(st, t.effects);
    OneGift(e, Enable(m.login));
  }

  lemma OneGift(e: Effect, f: Effect)
    requires GiftOf(e, 0) == 1 && GiftOf(f, 0) == 0
    ensures Gifts([e, f], 0) == 1
  {
    assert [e, f][..1] == [e] && [e][..0] == [];
    assert Gifts([], 0) == 0;
    assert Gifts([e], 0) == 1;
  }

  /** The sweep expires the only row once it is due. */
  lemma SweepExpires(st: State, m: Mailbox, now: Time)
    requires Only1(st, m) && !st.freeMode && Selected(m, ActiveDue(now))
    ensures var t := Serve(st, Sweeping(now, {}));
            var after := Replay(st, t.effects);
            Gifts(t.effects, 0) == 0 && Only1(after, m.(status := Expired)) && !after.freeMode
  {
    hide UniqueRows; hide Replay; hide Gifts; hide Find;
    OneRow(st, m);
    var due := Select(st.rows, ActiveDue(now));
    assert 0 in due;
    assert due == [0] by { Singleton(due); }
    ReplayNothing(st);
    ExpiresRow(st, 0, Lapsed, {});
    assert SweepPrefix(st, due, 0, {}) == Trace([], true, 0);
    var step := Expire(st, 0, m, Lapsed, 0, {});
    assert [] + step.effects == step.effects;
    assert SweepPrefix(st, due, 1, {}).effects == step.effects;
    SweepQuiet(st, due, 1, {});
    ModeKept(st, step.effects);
    SweepKinds(st, due, 1, {});
    NoGifts(step.effects, 0, {Lapses, Other});
  }

  lemma Singleton(s: seq<nat>)
    requires Increasing(s) && 0 in s && forall i :: 0 <= i < |s| ==> s[i] < 1
    ensures s == [0]
  {
    assert s[0] == 0 && s[|s| - 1] == 0;
  }

  /** A claim of the first key. */
  lemma FirstClaim(st: State, c: Claim)
    requires LinkAnswers(st, c) && st.rows == [] && ClaimMailbox(st, c).ok
    ensures var coupon := if st.freeMode then "" else c.coupon;
            var t := Serve(st, Claiming(c));
            var after := Replay(st, t.effects);
            && Gifts(t.effects, 0) == 0 && after.freeMode == st.freeMode && after.cfg == st.cfg
            && after.rows == [PendingRow(st, c, NewMailbox(c, coupon, if coupon == "" then 0 else GIFT_MONTHS))]
  {
    hide ClaimNew; hide UniqueRows; hide Replay; hide Gifts;
    var coupon := if st.freeMode then "" else c.coupon;
    var granted := ValidateCoupon(st.cfg, coupon).value;
    NewKeyRow(st, c, coupon, granted);
    ClaimNewKinds(st, c, coupon, granted);
    NoGifts(ClaimNew(st, c, coupon, granted).effects, 0, {Inserts});
    assert [] + [PendingRow(st, c, NewMailbox(c, coupon, granted))]
        == [PendingRow(st, c, NewMailbox(c, coupon, granted))];
  }

  /** Claim with a coupon, a payment signal, the sweep after the gift ran out, and the signal again. */
  function TwoGiftRun(st: State, c: Claim, paid: Time, swept: Time, again: Time): seq<Op> {
    var session := LinkSession(st.cfg, c.id, c.newSession);
    [] + [Claiming(c)] + [Paying(session, paid, {})] + [Sweeping(swept, {})] + [Paying(session, again, {})]
  }

  /**
   * The gift is given twice in a run from an empty table: its last signal is
   * stray.
   */
  lemma GiftGivenTwice(st: State, c: Claim, paid: Time, swept: Time, again: Time)
    requires st.rows == [] && !st.freeMode && LinkAnswers(st, c) && c.coupon != "" && ClaimMailbox(st, c).ok
    requires AddMonths(paid, GIFT_MONTHS) <= swept
    ensures var ops := TwoGiftRun(st, c, paid, swept, again);
            && Gifts(Journal(st, ops), 0) == 2
            && StrayGiftSignal(Run(st, ops[..3]), LinkSession(st.cfg, c.id, c.newSession))
  {
    hide AddMonths; hide Journal; hide Replay; hide Gifts; hide Serve; hide UniqueRows; hide Find; hide ClaimMailbox;
    var session := LinkSession(st.cfg, c.id, c.newSession);
    var m := PendingRow(st, c, NewMailbox(c, c.coupon, GIFT_MONTHS));
    EmptyRun(st);
    NoGifts([], 0, {});

    var ops1 := [] + [Claiming(c)];
    Onward(st, [], Claiming(c));
    FirstClaim(st, c);
    GiftsConcat(Journal(st, []), Serve(st, Claiming(c)).effects, 0);

    var ops2 := ops1 + [Paying(session, paid, {})];
    var st1 := Run(st, ops1);
    Onward(st, ops1, Paying(session, paid, {}));
    SignalGives(st1, m, paid);
    GiftsConcat(Journal(st, ops1), Serve(st1, Paying(session, paid, {})).effects, 0);

    var ops3 := ops2 + [Sweeping(swept, {})];
    var st2 := Run(st, ops2);
    var active := Credited(m, paid, GIFT_MONTHS);
    Onward(st, ops2, Sweeping(swept, {}));
    SweepExpires(st2, active, swept);
    GiftsConcat(Journal(st, ops2), Serve(st2, Sweeping(swept, {})).effects, 0);

    var st3 := Run(st, ops3);
    var expired := active.(status := Expired);
    Onward(st, ops3, Paying(session, again, {}));
    SignalGives(st3, expired, again);
    GiftsConcat(Journal(st, ops3), Serve(st3, Paying(session, again, {})).effects, 0);
    OneRow(st3, expired);
    assert TwoGiftRun(st, c, paid, swept, again)[..3] == ops3;
  }

  // ---------- an unlimited grant with a checkout tag ----------

  /** A free claim, the return of paid mode, a paid claim of the same key, and then the old link. */
  function OldLinkRun(free: Claim, paid: Claim, later: Time): seq<Op> {
    [] + [Claiming(free)] + [SettingMode(false)] + [Claiming(paid)] + [Activating(free.tokenHash, later, {})]
  }

  /** The paid claim of a row that waits for its activation puts a checkout into it and leaves its token. */
  lemma PaidReclaim(st: State, m: Mailbox, c: Claim)
    requires st.rows == [m] && !st.freeMode && st.cfg.openCollective && LinkAnswers(st, c)
    requires m.status == PendingPayment && m.session == "" && m.fingerprint == c.fingerprint && c.fingerprint != ""
    requires '@' in c.email && c.coupon == "" && c.feed.None? && c.faults == {}
    ensures var t := Serve(st, Claiming(c));
            var after := Replay(st, t.effects);
            after.rows == [m.(session := CheckoutTag(m.id), paymentUrl := c.newUrl, grantedMonths := 0)]
  {
    hide UniqueRows; hide Replay; hide Find;
    OneRow(st, m);
    var row := m.(session := CheckoutTag(m.id), paymentUrl := c.newUrl, grantedMonths := 0);
    var poll := ClaimPoll(st, c);
    ReplayNothing(st);
    ReplayOne(st, Polled(c.now));
    assert [Polled(c.now)] + [] == [Polled(c.now)];
    var st1 := Replay(st, poll.effects);
    assert st1.rows == [m] && st1.cfg == st.cfg;
    OneRow(st1.(rows := [row]), row);
    var save := Save(0, row, Priced(c.now));
    assert st1.rows[0 := row] == [row];
    assert [save] + [] == [save];
    assert Reprice(st1, c, 0, m, "", 0).effects == [save];
    ReplayConcat(st, poll.effects, [save]);
    ReplayOne(st1, save);
  }

  /**
   * What PermanentForever excludes can be reached from an empty table: an
   * unlimited grant that the next charge will end.
   */
  lemma TaggedGrantReached(st: State, free: Claim, paid: Claim, later: Time)
    requires st.rows == [] && st.freeMode && st.cfg.openCollective && LinkAnswers(st, free) && LinkAnswers(st, paid)
    requires ClaimMailbox(st, free).ok && later < free.now + ACTIVATION_TTL
    requires '@' in paid.email && paid.fingerprint == free.fingerprint && paid.coupon == "" && paid.feed.None?
    requires paid.faults == {}
    ensures var after := Run(st, OldLinkRun(free, paid, later));
            |after.rows| == 1 && Unlimited(after.rows[0]) && HasTagPrefix(after.rows[0].session) &&
                after.rows[0].KeyBound()
  {
    hide Journal; hide Replay; hide Serve; hide UniqueRows; hide Find; hide ClaimMailbox; hide Gifts; hide Activate;
    var m := PendingRow(st, free, NewMailbox(free, "", 0));
    EmptyRun(st);
    var ops1 := [] + [Claiming(free)];
    Onward(st, [], Claiming(free));
    FirstClaim(st, free);
    FirstKey(st, free);
    var st1 := Run(st, ops1);
    var ops2 := ops1 + [SettingMode(false)];
    Onward(st, ops1, SettingMode(false));
    ModeSet(st1, false);
    var st2 := Run(st, ops2);
    var ops3 := ops2 + [Claiming(paid)];
    Onward(st, ops2, Claiming(paid));
    PaidReclaim(st2, m, paid);
    var st3 := Run(st, ops3);
    var row := m.(session := CheckoutTag(m.id), paymentUrl := paid.newUrl, grantedMonths := 0);
    OneRow(st3, row);
    Onward(st, ops3, Activating(free.tokenHash, later, {}));
    ActivationExactlyWhen(st3, 0, free.tokenHash, later, {});
    Served1(st3, Activating(free.tokenHash, later, {}));
  }

  lemma FirstKey(st: State, c: Claim)
    requires ClaimMailbox(st, c).ok
    ensures c.fingerprint != ""
  {
  }

  lemma ModeSet(st: State, on: bool)
    ensures Replay(st, Serve(st, SettingMode(on)).effects) == st.(freeMode := on)
  {
    hide Replay; hide ClaimMailbox; hide MarkPaid; hide Poll; hide Switchover; hide ResolveByToken; hide Reprovision;
    ReplayOne(st, SwitchMode(on));
  }

  lemma Served1(st: State, op: Op)
    requires op.Activating?
    ensures Serve(st, op) == Activate(st, op.hash, op.now, op.faults)
  {
  }
}
