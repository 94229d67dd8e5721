/** What an activation link grants is permanent, exactly while no Open Collective checkout is recorded. */
module FreeActivation {
  import opened Calendar
  import opened Domain
  import opened Lifecycle
  import opened PollSteps
  import opened Legality
  import opened Runs

  /** Activated without an expiry, and without a checkout tag that a charge could carry. */
  predicate Permanent(m: Mailbox) {
    Unlimited(m) && !HasTagPrefix(m.session)
  }

  lemma WriteKeepsPermanent(st: State, e: Effect, k: nat)
    requires Legal(st, e) && KindOf(e) != Admins
    requires k < |st.rows| && Permanent(st.rows[k])
    ensures k < |Apply(st, e).rows| && Apply(st, e).rows[k] == st.rows[k]
  {
  }

  lemma {:induction false} WritesKeepPermanent(st: State, effects: seq<Effect>, k: nat)
    requires LegalRun(st, effects) && Only(effects, ALL_BUT_ADMIN)
    requires k < |st.rows| && Permanent(st.rows[k])
    ensures k < |Replay(st, effects).rows| && Replay(st, effects).rows[k] == st.rows[k]
    decreases |effects|
  {
    if effects != [] {
      var n := |effects| - 1;
      WritesKeepPermanent(st, effects[..n], k);
      WriteKeepsPermanent(Replay(st, effects[..n]), effects[n], k);
    }
  }

  /**
   * Over any run without administrative calls, with the mode switched at will,
   * the row is not even written differently.
   */
  lemma PermanentForever(st: State, ops: seq<Op>, k: nat, j: nat)
    requires Consistent(st) && k < |st.rows| && Permanent(st.rows[k])
    requires OnlyOps(ops, ALL_BUT_ADMIN)
    requires j <= |Journal(st, ops)|
    ensures var after := Replay(st, Journal(st, ops)[..j]);
            k < |after.rows| && after.rows[k] == st.rows[k]
  {
    RunLegal(st, ops);
    RunKinds(st, ops, ALL_BUT_ADMIN);
    LegalPrefix(st, Journal(st, ops), j);
    WritesKeepPermanent(st, Journal(st, ops)[..j], k);
  }

  /** The charge that ends an unlimited row with a checkout tag: any charge after its cursor. */
  function EndingCharge(m: Mailbox): Charge {
    Charge(m.session, "tx", if m.lastChargedAt.Some? then m.lastChargedAt.value + 1 else 0)
  }

  function EndingRun(m: Mailbox): seq<Op> {
    [] + [SettingMode(false)] + [Polling(Some([EndingCharge(m)]), {})]
  }

  /** With a checkout tag the grant is not permanent: the next charge of the poll gives the row an expiry. */
  lemma TaggedGrantEnds(st: State, k: nat)
    requires Consistent(st) && k < |st.rows| && Unlimited(st.rows[k]) && HasTagPrefix(st.rows[k].session)
    requires st.rows[k].KeyBound()
    ensures var after := Run(st, EndingRun(st.rows[k]));
            k < |after.rows| && after.rows[k].expiresAt.Some?
  {
    hide CreditCharge; hide AddMonths; hide Journal; hide PollPrefix; hide UniqueRows; hide Find; hide Replay;
    var m := st.rows[k];
    var c := EndingCharge(m);
    var paid := Apply(st, SwitchMode(false));
    EmptyRun(st);
    Onward(st, [], SettingMode(false));
    ReplayOne(st, SwitchMode(false));
    Onward(st, [] + [SettingMode(false)], Polling(Some([c]), {}));
    PollOfOne(paid, c, {});
    FindUnique(st.rows, BySession(m.session), k);
    RenewAlone(paid, k, c);
  }

  lemma RenewAlone(st: State, k: nat, c: Charge)
    requires !st.freeMode && UniqueRows(st.rows) && k < |st.rows|
    requires Find(st.rows, BySession(c.tag)) == Some(k)
    requires st.rows[k].KeyBound() && st.rows[k].status != PendingPayment && !Settled(st.rows[k], c)
    ensures Replay(st, CreditCharge(st, c, 0, {}).effects).rows == st.rows[k := CreditRow(st.rows[k], c)]
  {
    hide AddMonths; hide UniqueRows; hide Find; hide Replay;
    var m := st.rows[k];
    UniqueWith(st.rows, k, CreditRow(m, c));
    CreditRows(st, c, 0, {});
    assert CreditCharge(st, c, 0, {}).ok;
  }

  lemma EndingRunKinds(m: Mailbox)
    ensures OnlyOps(EndingRun(m), ALL_BUT_ADMIN)
  {
  }

  /**
   * Exactly the unlimited key-bound rows without a checkout tag keep their grant
   * over every run of non-administrative calls.
   */
  lemma PermanentIffUntagged(st: State, k: nat)
    requires Consistent(st) && k < |st.rows| && Unlimited(st.rows[k]) && st.rows[k].KeyBound()
    ensures !HasTagPrefix(st.rows[k].session) <==>
            (forall ops: seq<Op> :: OnlyOps(ops, ALL_BUT_ADMIN) ==>
               k < |Run(st, ops).rows| && Unlimited(Run(st, ops).rows[k]))
  {
    hide Journal; hide EndingRun; hide OnlyOps; hide Consistent; hide Replay;
    if HasTagPrefix(st.rows[k].session) {
      TaggedGrantEnds(st, k);
      var ops := EndingRun(st.rows[k]);
      EndingRunKinds(st.rows[k]);
      assert !Unlimited(Run(st, ops).rows[k]);
    } else {
      forall ops: seq<Op> | OnlyOps(ops, ALL_BUT_ADMIN)
        ensures k < |Run(st, ops).rows| && Unlimited(Run(st, ops).rows[k])
      {
        PermanentForever(st, ops, k, |Journal(st, ops)|);
        assert Journal(st, ops)[..|Journal(st, ops)|] == Journal(st, ops);
      }
    }
  }
}
