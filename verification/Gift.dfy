/** The three-month gift of a coupon activates a key's mailbox at most once. */
module Gift {
  import opened Calendar
  import opened Domain
  import opened Lifecycle
  import opened Legality
  import opened CallLegality
  import opened Runs

  /** A write that activates row k with the gift. */
  function GiftOf(e: Effect, k: nat): nat {
    if e.Save? && e.k == k && e.why.Paid? && e.why.months == GIFT_MONTHS then 1 else 0
  }

  function Gifts(effects: seq<Effect>, k: nat): nat
    decreases |effects|
  {
    if effects == [] then 0 else Gifts(effects[..|effects| - 1], k) + GiftOf(effects[|effects| - 1], k)
  }

  /** The gift is only paid to pending rows with a recorded checkout. */
  ghost predicate PaysCheckout(st: State, e: Effect) {
    e.Save? && e.why.Paid? && e.why.months == GIFT_MONTHS ==>
      e.k < |st.rows| && st.rows[e.k].status == PendingPayment && st.rows[e.k].session != ""
  }

  ghost predicate PaysCheckouts(st: State, effects: seq<Effect>)
    decreases |effects|
  {
    effects == []
    || (var n := |effects| - 1; PaysCheckouts(st, effects[..n]) && PaysCheckout(Replay(st, effects[..n]), effects[n]))
  }

  lemma {:induction false} PaysConcat(st: State, a: seq<Effect>, b: seq<Effect>)
    requires PaysCheckouts(st, a) && PaysCheckouts(Replay(st, a), b)
    ensures PaysCheckouts(st, a + b)
    decreases |b|
  {
    hide PaysCheckout;
    if b == [] {
      assert a + b == a;
    } else {
      var n := |b| - 1;
      assert (a + b)[..|a + b| - 1] == a + b[..n];
      PaysConcat(st, a, b[..n]);
      ReplayConcat(st, a, b[..n]);
    }
  }

  /** The poll pays pending rows with a checkout only: legality says so. */
  lemma {:induction false} ChargesPayCheckouts(st: State, effects: seq<Effect>, kinds: set<Kind>)
    requires LegalRun(st, effects) && Only(effects, kinds) && PaysNow !in kinds
    ensures PaysCheckouts(st, effects)
    decreases |effects|
  {
    if effects != [] {
      var n := |effects| - 1;
      var e := effects[n];
      assert e in effects;
      ChargesPayCheckouts(st, effects[..n], kinds);
      ChargePaysCheckout(Replay(st, effects[..n]), e);
    }
  }

  lemma ChargePaysCheckout(st: State, e: Effect)
    requires Legal(st, e) && KindOf(e) != PaysNow
    ensures PaysCheckout(st, e)
  {
  }

  /** A payment signal for row k writes at most that row. */
  lemma MarkPaidPays(st: State, k: nat, now: Time, i: nat, faults: Faults)
    requires UniqueRows(st.rows) && k < |st.rows| && st.rows[k].session != "" && st.rows[k].status == PendingPayment
    ensures var t := MarkPaid(st, st.rows[k].session, None, now, i, faults);
            && PaysCheckouts(st, t.effects)
            && var rows := Replay(st, t.effects).rows;
               |rows| == |st.rows| && rows == st.rows[k := rows[k]]
  {
    hide AddMonths; hide UniqueRows; hide Find; hide PaysCheckouts; hide Replay; hide Update; hide Ensure; hide AndThen;
    var m := st.rows[k];
    FindUnique(st.rows, BySession(m.session), k);
    PaysNothing(st);
    ReplayNothing(st);
    var t := MarkPaid(st, m.session, None, now, i, faults);
    if t.effects != [] {
      var row, why, first := m, Lapsed, [];
      if m.KeyBound() {
        var months := MonthsGranted(m);
        row, why := Credited(m, now, months), Paid(None, Later(now, m.expiresAt), months);
      } else {
        var base := Later(now, st.accounts[m.accountId]);
        row := m.(status := Active, paidAt := Some(now), expiresAt := Some(AddMonths(base, 1)));
        why, first := Paid(None, base, 1), [Extend(m.accountId, AddMonths(base, 1))];
      }
      PaymentWrites(st, first, k, row, why, i, faults);
    }
  }

  /** A payment of the gift is for a pending row with a checkout. */
  predicate InOrder(m: Mailbox, why: Why) {
    why.Paid? && why.months == GIFT_MONTHS ==> m.status == PendingPayment && m.session != ""
  }

  lemma PaymentWrites(st: State, first: seq<Effect>, k: nat, row: Mailbox, why: Why, i: nat, faults: Faults)
    requires k < |st.rows| && InOrder(st.rows[k], why)
    requires |first| <= 1 && (first != [] ==> first[0].Extend?)
    ensures var t := Then(first, AndThen(Update(st, k, row, why, i, faults), Ensure(row.login, i, faults)));
            && PaysCheckouts(st, t.effects)
            && var rows := Replay(st, t.effects).rows;
               |rows| == |st.rows| && rows == st.rows[k := rows[k]]
    ensures first == [] ==>
            Then(first, AndThen(Update(st, k, row, why, i, faults), Ensure(row.login, i, faults)))
              == AndThen(Update(st, k, row, why, i, faults), Ensure(row.login, i, faults))
  {
    hide PaysCheckouts; hide Replay; hide UniqueRows; hide InOrder;
    var mid := Replay(st, first);
    ExtendFirst(st, first);
    var t := AndThen(Update(st, k, row, why, i, faults), Ensure(row.login, i, faults));
    assert [] + t.effects == t.effects;
    var e, f := Save(k, row, why), Enable(row.login);
    PaymentAlone(mid, k, row, why);
    ReplayNothing(mid);
    PaysNothing(mid);
    assert t.effects == [] || t.effects == [e] || t.effects == [e, f];
    PaysConcat(st, first, t.effects);
    ReplayConcat(st, first, t.effects);
  }

  lemma ExtendFirst(st: State, first: seq<Effect>)
    requires |first| <= 1 && (first != [] ==> first[0].Extend?)
    ensures Replay(st, first).rows == st.rows && PaysCheckouts(st, first)
  {
    if first == [] {
      PaysNothing(st);
    } else {
      assert first == [first[0]];
      PaysOne(st, first[0]);
      ReplayOne(st, first[0]);
    }
  }

  lemma PaymentAlone(st: State, k: nat, row: Mailbox, why: Why)
    requires k < |st.rows| && InOrder(st.rows[k], why)
    ensures var e, f := Save(k, row, why), Enable(row.login);
            && PaysCheckouts(st, [e]) && PaysCheckouts(st, [e, f])
            && Replay(st, [e]).rows == st.rows[k := row] && Replay(st, [e, f]).rows == st.rows[k := row]
  {
    hide PaysCheckouts; hide Replay;
    var e, f := Save(k, row, why), Enable(row.login);
    ReplayOne(st, e);
    ReplayTwo(st, e, f);
    PaysOne(st, e);
    PaysOne(Apply(st, e), f);
    PaysConcat(st, [e], [f]);
    assert [e] + [f] == [e, f];
  }

  lemma PaysOne(st: State, e: Effect)
    requires PaysCheckout(st, e)
    ensures PaysCheckouts(st, [e])
  {
    assert [e][..0] == [];
    ReplayOne(st, e);
    PaysNothing(st);
  }

  /** Every row ReconcilePendingPayments pays was listed as pending, and is so still. */
  lemma {:induction false} PendingPays(st: State, listed: seq<nat>, n: nat, now: Time,
                                       replies: map<string, SessionReply>, faults: Faults)
    requires Consistent(st) && n <= |listed| && Increasing(listed)
    requires forall i :: 0 <= i < |listed| ==> listed[i] < |st.rows| && st.rows[listed[i]].status == PendingPayment
    ensures var t := PendingPrefix(st, listed, n, now, replies, faults);
            && PaysCheckouts(st, t.effects)
            && var rows := Replay(st, t.effects).rows;
               |rows| == |st.rows| && forall i :: n <= i < |listed| ==> rows[listed[i]] == st.rows[listed[i]]
  {
    hide MarkPaid; hide PaysCheckouts; hide Consistent;
    if n == 0 {
      PaysNothing(st);
    } else {
      PendingPays(st, listed, n - 1, now, replies, faults);
      PendingPrefixLegal(st, listed, n - 1, now, replies, faults);
      var before := PendingPrefix(st, listed, n - 1, now, replies, faults);
      var mid := Replay(st, before.effects);
      RunKeepsConsistent(st, before.effects);
      var k := listed[n - 1];
      var step := MarkPaid(mid, st.rows[k].session, None, now, n - 1, faults);
      if st.rows[k].session != "" {
        ConsistentUnique(mid);
        MarkPaidPays(mid, k, now, n - 1, faults);
        PaysConcat(st, before.effects, step.effects);
        ReplayConcat(st, before.effects, step.effects);
      }
    }
  }

  lemma PaysNothing(st: State)
    ensures PaysCheckouts(st, [])
  {
  }

  /**
   * The signal would pay the gift to a row that has no checkout pending: it
   * finds, in paid mode, a key-bound row that still has the gift months and
   * has expired or recorded no session.
   */
  predicate StrayGiftSignal(st: State, session: string) {
    var found := Find(st.rows, BySession(session));
    !st.freeMode && found.Some? && StrayGift(st.rows[found.value])
  }

  predicate StrayGift(m: Mailbox) {
    && m.KeyBound() && m.grantedMonths == GIFT_MONTHS
    && (m.status == Expired || (m.status == PendingPayment && m.session == ""))
  }

  lemma ExecPaysCheckouts(st: State, op: Op)
    requires Consistent(st) && Answers(st, op) && (op.Paying? ==> !StrayGiftSignal(st, op.session))
    ensures PaysCheckouts(st, Exec(st, op).effects)
  {
    hide Exec; hide Legal; hide KindOf; hide PaysCheckouts; hide Consistent; hide StrayGiftSignal;
    if op.ReconcilingPending? {
      PendingReconcilePays(st, op);
    } else if op.Paying? {
      SignalPaysCheckouts(st, op);
    } else {
      ExecKinds(st, op);
      ExecLegal(st, op);
      ChargesPayCheckouts(st, Exec(st, op).effects, KindsOf(op));
    }
  }

  lemma SignalPaysCheckouts(st: State, op: Op)
    requires op.Paying? && !StrayGiftSignal(st, op.session)
    ensures PaysCheckouts(st, Exec(st, op).effects)
  {
    hide AddMonths; hide PaysCheckouts; hide UniqueRows; hide Find; hide Replay;
    var t := MarkPaid(st, op.session, None, op.now, 0, op.faults);
    var found := Find(st.rows, BySession(op.session));
    PaysNothing(st);
    if t.effects != [] && found.Some? {
      var k := found.value;
      var m := st.rows[k];
      if m.status == Active {
        PaysOne(st, Enable(m.login));
      } else if m.KeyBound() {
        var months := MonthsGranted(m);
        PaymentWrites(st, [], k, Credited(m, op.now, months), Paid(None, Later(op.now, m.expiresAt), months), 0,
                      op.faults);
      } else {
        var base := Later(op.now, st.accounts[m.accountId]);
        var row := m.(status := Active, paidAt := Some(op.now), expiresAt := Some(AddMonths(base, 1)));
        PaymentWrites(st, [Extend(m.accountId, AddMonths(base, 1))], k, row, Paid(None, base, 1), 0, op.faults);
      }
    }
  }

  lemma PendingReconcilePays(st: State, op: Op)
    requires Consistent(st) && op.ReconcilingPending?
    ensures PaysCheckouts(st, Exec(st, op).effects)
  {
    hide PendingPrefix;
    var listed := Select(st.rows, PendingRows);
    PendingPays(st, listed, |listed|, op.now, op.replies, op.faults);
  }

  // ---------- at most one gift ----------

  /** A gift is pending only together with the mark that the coupon was used. */
  predicate GiftMarked(m: Mailbox) {
    m.grantedMonths == 0 || (m.grantedMonths == GIFT_MONTHS && m.couponUsed)
  }

  /**
   * Once a gift was given the coupon stays marked as used, and the gift months
   * still on the row cannot be paid for: its checkout is gone.
   */
  ghost predicate GiftSpent(m: Mailbox) {
    m.couponUsed && (m.status == PendingPayment ==> m.grantedMonths == 0 || m.session == "")
  }

  ghost predicate GiftInv(st: State, k: nat, given: nat) {
    && given <= 1
    && (k < |st.rows| ==> GiftMarked(st.rows[k]))
    && (given == 1 ==> k < |st.rows| && GiftSpent(st.rows[k]))
  }

  lemma WriteKeepsGift(st: State, e: Effect, k: nat, given: nat)
    requires Legal(st, e) && PaysCheckout(st, e)
    requires GiftInv(st, k, given)
    ensures GiftInv(Apply(st, e), k, given + GiftOf(e, k))
  {
    hide AddMonths; hide UniqueRows;
  }

  lemma {:induction false} WritesKeepGift(st: State, effects: seq<Effect>, k: nat, given: nat)
    requires LegalRun(st, effects) && PaysCheckouts(st, effects)
    requires GiftInv(st, k, given)
    ensures GiftInv(Replay(st, effects), k, given + Gifts(effects, k))
    decreases |effects|
  {
    hide Legal; hide Apply; hide GiftInv; hide PaysCheckout; hide GiftOf;
    if effects != [] {
      var n := |effects| - 1;
      WritesKeepGift(st, effects[..n], k, given);
      WriteKeepsGift(Replay(st, effects[..n]), effects[n], k, given + Gifts(effects[..n], k));
    }
  }

  lemma {:induction false} GiftsConcat(a: seq<Effect>, b: seq<Effect>, k: nat)
    ensures Gifts(a + b, k) == Gifts(a, k) + Gifts(b, k)
    decreases |b|
  {
    hide GiftOf;
    if b == [] {
      assert a + b == a;
    } else {
      var n := |b| - 1;
      assert (a + b)[..|a + b| - 1] == a + b[..n];
      GiftsConcat(a, b[..n], k);
    }
  }

  /** The signal is stray, and no port fails before its row is written. */
  predicate StrayPayment(st: State, op: Op, k: nat) {
    && op.Paying? && Find(st.rows, BySession(op.session)) == Some(k) && StrayGiftSignal(st, op.session)
    && Call(Relookup, 0) !in op.faults && Call(RowWrite, 0) !in op.faults
  }

  /** What a stray signal writes: nothing when a port fails first, and otherwise the whole gift. */
  lemma StrayWrites(st: State, op: Op, k: nat)
    requires op.Paying? && UniqueRows(st.rows) && Find(st.rows, BySession(op.session)) == Some(k)
    requires StrayGiftSignal(st, op.session)
    ensures var m := st.rows[k];
            var e := Save(k, Credited(m, op.now, GIFT_MONTHS), Paid(None, Later(op.now, m.expiresAt), GIFT_MONTHS));
            var effects := Exec(st, op).effects;
            if StrayPayment(st, op, k) then effects == [e] || effects == [e, Enable(m.login)] else effects == []
  {
    hide AddMonths; hide UniqueRows; hide Find;
    var m := st.rows[k];
    var row := Credited(m, op.now, GIFT_MONTHS);
    UniqueWith(st.rows, k, row);
    var e := Save(k, row, Paid(None, Later(op.now, m.expiresAt), GIFT_MONTHS));
    assert [e] + [] == [e] && [e] + [Enable(m.login)] == [e, Enable(m.login)];
  }

  /** The effect of a stray signal on the gifts of row k, and on the row. */
  lemma StrayGives(st: State, op: Op, j: nat, k: nat, given: nat)
    requires op.Paying? && UniqueRows(st.rows) && Find(st.rows, BySession(op.session)) == Some(j)
    requires StrayGiftSignal(st, op.session)
    ensures Gifts(Exec(st, op).effects, k) == if StrayPayment(st, op, j) && j == k then 1 else 0
    ensures GiftInv(st, k, given) && (StrayPayment(st, op, j) && j == k ==> given == 0) ==>
              GiftInv(Replay(st, Exec(st, op).effects), k, given + Gifts(Exec(st, op).effects, k))
  {
    hide AddMonths; hide UniqueRows; hide Find; hide Exec; hide StrayPayment;
    StrayWrites(st, op, j);
    var m := st.rows[j];
    var row := Credited(m, op.now, GIFT_MONTHS);
    var e, f := Save(j, row, Paid(None, Later(op.now, m.expiresAt), GIFT_MONTHS)), Enable(m.login);
    ReplayNothing(st);
    ReplayOne(st, e);
    ReplayTwo(st, e, f);
    GiftsOfTwo(e, f, k);
  }

  lemma GiftsOfTwo(e: Effect, f: Effect, k: nat)
    ensures Gifts([], k) == 0 && Gifts([e], k) == GiftOf(e, k) && Gifts([e, f], k) == GiftOf(e, k) + GiftOf(f, k)
  {
    assert [e, f][..1] == [e] && [e][..0] == [];
    assert Gifts([e], k) == Gifts([], k) + GiftOf(e, k);
  }

  /** Every call of every kind keeps the invariant, but for a stray payment of a row that had its gift. */
  lemma CallKeepsGift(st: State, op: Op, k: nat, given: nat)
    requires Consistent(st) && GiftInv(st, k, given)
    requires StrayPayment(st, op, k) ==> given == 0
    ensures GiftInv(Replay(st, Serve(st, op).effects), k, given + Gifts(Serve(st, op).effects, k))
  {
    hide Exec; hide GiftInv; hide PaysCheckouts; hide LegalRun; hide Replay; hide StrayPayment; hide Consistent;
    if !Answers(st, op) {
      ReplayNothing(st);
      GiftsOfTwo(Enable(""), Enable(""), k);
    } else if op.Paying? && StrayGiftSignal(st, op.session) {
      ConsistentUnique(st);
      StrayGives(st, op, Find(st.rows, BySession(op.session)).value, k, given);
    } else {
      ExecLegal(st, op);
      ExecPaysCheckouts(st, op);
      WritesKeepGift(st, Exec(st, op).effects, k, given);
    }
  }

  /** Call i of the run is a stray payment of row k after row k had its gift. */
  ghost predicate Repeats(st: State, ops: seq<Op>, i: nat, k: nat) {
    i < |ops| && Gifts(Journal(st, ops[..i]), k) >= 1 && StrayPayment(Run(st, ops[..i]), ops[i], k)
  }

  lemma {:induction false} RunKeepsGift(st: State, ops: seq<Op>, k: nat)
    requires Consistent(st) && (k < |st.rows| ==> GiftMarked(st.rows[k]))
    requires forall i :: 0 <= i < |ops| ==> !Repeats(st, ops, i, k)
    ensures GiftInv(Run(st, ops), k, Gifts(Journal(st, ops), k))
    decreases |ops|
  {
    hide Journal; hide Consistent; hide StrayPayment; hide GiftMarked; hide GiftSpent; hide Replay; hide Gifts;
    hide Serve;
    if ops == [] {
      EmptyRun(st);
      GiftsOfTwo(Enable(""), Enable(""), k);
    } else {
      var n := |ops| - 1;
      var front, op := ops[..n], ops[n];
      assert ops == front + [op];
      assert forall i :: 0 <= i < n ==> front[..i] == ops[..i] && front[i] == ops[i];
      assert forall i :: 0 <= i < n ==> (Repeats(st, front, i, k) <==> Repeats(st, ops, i, k));
      RunKeepsGift(st, front, k);
      RunLegal(st, front);
      Onward(st, front, op);
      assert !Repeats(st, ops, n, k);
      CallKeepsGift(Run(st, front), op, k, Gifts(Journal(st, front), k));
      GiftsConcat(Journal(st, front), Serve(Run(st, front), op).effects, k);
    }
  }

  lemma {:induction false} GiftsGrow(st: State, ops: seq<Op>, i: nat, k: nat)
    requires i <= |ops|
    ensures Gifts(Journal(st, ops[..i]), k) <= Gifts(Journal(st, ops), k)
    decreases |ops| - i
  {
    hide Journal; hide Gifts; hide Serve;
    if i < |ops| {
      Onward(st, ops[..i], ops[i]);
      assert ops[..i + 1] == ops[..i] + [ops[i]];
      GiftsConcat(Journal(st, ops[..i]), Serve(Run(st, ops[..i]), ops[i]).effects, k);
      GiftsGrow(st, ops, i + 1, k);
    } else {
      assert ops[..i] == ops;
    }
  }

  /** A stray payment after the gift is a second gift. */
  lemma RepeatGives(st: State, ops: seq<Op>, i: nat, k: nat)
    requires Consistent(st) && Repeats(st, ops, i, k)
    ensures Gifts(Journal(st, ops), k) > 1
  {
    hide Journal; hide Gifts; hide Exec; hide Consistent; hide Replay;
    var mid := Run(st, ops[..i]);
    RunLegal(st, ops[..i]);
    ConsistentUnique(mid);
    StrayGives(mid, ops[i], k, k, 0);
    Onward(st, ops[..i], ops[i]);
    assert ops[..i + 1] == ops[..i] + [ops[i]];
    GiftsConcat(Journal(st, ops[..i]), Serve(mid, ops[i]).effects, k);
    GiftsGrow(st, ops, i + 1, k);
  }

  /**
   * Over every run of all calls, with coupons, signals, administration,
   * failures and mode flips at will: a row gets the gift more than once if and
   * only if a stray signal pays it after it had its gift. A stray signal before
   * that is its first gift.
   */
  lemma GiftTwiceExactlyWhen(st: State, ops: seq<Op>, k: nat)
    requires Consistent(st) && (k < |st.rows| ==> GiftMarked(st.rows[k]))
    ensures Gifts(Journal(st, ops), k) > 1 <==> exists i :: Repeats(st, ops, i, k)
  {
    hide Journal; hide Gifts; hide Consistent; hide Repeats; hide GiftMarked;
    if i :| Repeats(st, ops, i, k) {
      RepeatGives(st, ops, i, k);
    } else {
      RunKeepsGift(st, ops, k);
    }
  }

  /** Without failures a signal pays the gift to a row that has no checkout pending if and only if it is stray. */
  lemma StraySignalExactlyWhen(st: State, session: string, now: Time)
    requires UniqueRows(st.rows)
    ensures StrayGiftSignal(st, session) <==> !PaysCheckouts(st, MarkPaid(st, session, None, now, 0, {}).effects)
  {
    hide AddMonths; hide UniqueRows; hide Find; hide PaysCheckouts;
    if StrayGiftSignal(st, session) {
      var k := Find(st.rows, BySession(session)).value;
      var m := st.rows[k];
      StrayWrites(st, Paying(session, now, {}), k);
      var e, f := Save(k, Credited(m, now, GIFT_MONTHS),
                       Paid(None, Later(now, m.expiresAt), GIFT_MONTHS)), Enable(m.login);
      StrayWrite(st, e, f);
    } else {
      SignalPaysCheckouts(st, Paying(session, now, {}));
    }
  }

  lemma StrayWrite(st: State, e: Effect, f: Effect)
    requires !PaysCheckout(st, e)
    ensures !PaysCheckouts(st, [e, f])
  {
    assert [e, f][..1] == [e] && [e][..0] == [];
  }
}
