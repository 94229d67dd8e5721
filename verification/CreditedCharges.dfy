/** Which charges of its checkout a poll credits to a row: exactly those that are later than all before them. */
module CreditedCharges {
  import opened Calendar
  import opened Domain
  import opened Lifecycle
  import opened PollSteps
  import opened Legality
  import opened PaidTime
  import opened PollConvergence
  import opened ChargeFeed

  /** The charges a row takes out of a list, from its cursor on: each later than the one before. */
  function Taken(cursor: Option<Time>, charges: seq<Charge>): seq<Charge>
    decreases |charges|
  {
    if charges == [] then []
    else
      var before := Taken(cursor, charges[..|charges| - 1]);
      var c := charges[|charges| - 1];
      if LaterInTime(LastAt(cursor, before), c.at) then before + [c] else before
  }

  function LastAt(cursor: Option<Time>, charges: seq<Charge>): Option<Time> {
    if charges == [] then cursor else Some(charges[|charges| - 1].at)
  }

  lemma {:induction false} TakenAtMost(cursor: Option<Time>, charges: seq<Charge>)
    ensures |Taken(cursor, charges)| <= |charges|
    decreases |charges|
  {
    if charges != [] {
      TakenAtMost(cursor, charges[..|charges| - 1]);
    }
  }

  /** All charges are taken exactly when their times strictly rise after the cursor. */
  lemma {:induction false} AllTakenExactlyWhen(cursor: Option<Time>, charges: seq<Charge>)
    ensures Taken(cursor, charges) == charges <==> StrictlyLater(charges, cursor)
    decreases |charges|
  {
    if charges != [] {
      var front, c := charges[..|charges| - 1], charges[|charges| - 1];
      assert charges == front + [c];
      AllTakenExactlyWhen(cursor, front);
      TakenAtMost(cursor, front);
      OneMoreLater(cursor, front, c);
      if Taken(cursor, charges) == charges {
        assert |Taken(cursor, front)| == |front|;
        assert Taken(cursor, front) == charges[..|front|];
      }
    }
  }

  lemma OneMoreLater(cursor: Option<Time>, front: seq<Charge>, c: Charge)
    ensures StrictlyLater(front + [c], cursor) <==>
        StrictlyLater(front, cursor) && LaterInTime(LastAt(cursor, front), c.at)
  {
    var all := front + [c];
    assert all[|front|] == c && forall i :: 0 <= i < |front| ==> all[i] == front[i];
    if front != [] {
      assert all[|front| - 1] == front[|front| - 1];
    }
  }

  // ---------- one charge ----------

  lemma CreditsOfTwo(e: Effect, f: Effect, k: nat)
    ensures Credits([e], k) == CreditOf(e, k) && Credits([e, f], k) == CreditOf(e, k) + CreditOf(f, k)
    ensures Credits([], k) == []
  {
    assert [e, f][..1] == [e] && [e][..0] == [];
    assert Credits([], k) == [] && [] + CreditOf(e, k) == CreditOf(e, k);
  }

  lemma {:induction false} CreditsConcat(a: seq<Effect>, b: seq<Effect>, k: nat)
    ensures Credits(a + b, k) == Credits(a, k) + Credits(b, k)
    decreases |b|
  {
    hide CreditOf;
    if b == [] {
      assert a + b == a;
    } else {
      var n := |b| - 1;
      assert (a + b)[..|a + b| - 1] == a + b[..n];
      CreditsConcat(a, b[..n], k);
    }
  }

  /** The writes of a charge that goes through, after what it does to an account. */
  lemma SavedOnce(st: State, first: seq<Effect>, j: nat, row: Mailbox, why: Why, c: Charge, i: nat, faults: Faults,
                  k: nat)
    requires |first| <= 1 && (first != [] ==> first[0].Extend?) && CreditOf(Save(j, row, why), j) == [c]
    ensures var t := Then(first, AndThen(Update(st, j, row, why, i, faults), Ensure(row.login, i, faults)));
            t.ok ==> Credits(t.effects, k) == if j == k then [c] else []
    ensures first == [] ==>
              Then(first, AndThen(Update(st, j, row, why, i, faults), Ensure(row.login, i, faults)))
                == AndThen(Update(st, j, row, why, i, faults), Ensure(row.login, i, faults))
  {
    hide UniqueRows; hide Credits;
    var e, f := Save(j, row, why), Enable(row.login);
    var rest := AndThen(Update(st, j, row, why, i, faults), Ensure(row.login, i, faults));
    assert [] + rest.effects == rest.effects;
    CreditsConcat(first, rest.effects, k);
    CreditsOfTwo(e, f, k);
    if first != [] {
      assert first == [first[0]];
      CreditsOfTwo(first[0], f, k);
    }
    assert rest.ok ==> rest.effects == [e, f];
  }

  /** A charge that goes through is credited to the row of its tag, unless that is settled with it. */
  lemma ChargeCredits(st: State, c: Charge, i: nat, faults: Faults, k: nat)
    requires !st.freeMode && CreditCharge(st, c, i, faults).ok
    ensures var found := Find(st.rows, BySession(c.tag));
            Credits(CreditCharge(st, c, i, faults).effects, k) ==
              if found == Some(k) && !Settled(st.rows[k], c) then [c] else []
  {
    hide AddMonths; hide UniqueRows; hide Update; hide Ensure; hide AndThen; hide Find; hide Settled; hide Credits;
    CreditsOfTwo(Enable(""), Enable(""), k);
    var found := Find(st.rows, BySession(c.tag));
    if found.Some? && !Settled(st.rows[found.value], c) {
      var j := found.value;
      var m := st.rows[j];
      if m.status == PendingPayment && m.KeyBound() {
        var months := MonthsGranted(m);
        var why := Paid(Some(c), Later(c.at, m.expiresAt), months);
        SavedOnce(st, [], j, Credited(WithCursor(m, Some(c)), c.at, months), why, c, i, faults, k);
      } else if m.status == PendingPayment {
        if m.accountId in st.accounts {
          var base := Later(c.at, st.accounts[m.accountId]);
          var row := WithCursor(m, Some(c)).(status := Active, paidAt := Some(c.at),
                                             expiresAt := Some(AddMonths(base, 1)));
          SavedOnce(st, [Extend(m.accountId, AddMonths(base, 1))], j, row, Paid(Some(c), base, 1), c, i, faults, k);
        }
      } else {
        var base := Later(c.at, m.expiresAt);
        var first := if m.KeyBound() then [] else [Extend(m.accountId, AddMonths(base, 1))];
        SavedOnce(st, first, j, Credited(WithCursor(m, Some(c)), c.at, 1), Renewed(c, base), c, i, faults, k);
      }
    }
  }

  // ---------- a poll ----------

  /** A poll keeps the sessions. */
  lemma {:induction false} SessionsKept(st: State, charges: seq<Charge>, n: nat, faults: Faults)
    requires !st.freeMode && n <= |charges|
    ensures var rows := Replay(st, PollPrefix(st, charges, n, faults).effects).rows;
            |rows| == |st.rows| && forall k :: 0 <= k < |rows| ==> rows[k].session == st.rows[k].session
  {
    hide CreditCharge; hide Replay;
    if n == 0 {
      ReplayNothing(st);
    } else {
      SessionsKept(st, charges, n - 1, faults);
      var before := PollPrefix(st, charges, n - 1, faults);
      var mid := Replay(st, before.effects);
      if before.ok {
        PollQuiet(st, charges, n - 1, faults);
        ModeKept(st, before.effects);
        CreditRows(mid, charges[n - 1], n - 1, faults);
        ReplayConcat(st, before.effects, CreditCharge(mid, charges[n - 1], n - 1, faults).effects);
      }
    }
  }

  /** The charge of one step, on a row with a checkout tag. */
  lemma StepCredits(mid: State, c: Charge, i: nat, faults: Faults, k: nat)
    requires !mid.freeMode && UniqueRows(mid.rows) && CreditCharge(mid, c, i, faults).ok && c.chargeId != ""
    requires k < |mid.rows| && HasTagPrefix(mid.rows[k].session)
    ensures Credits(CreditCharge(mid, c, i, faults).effects, k) ==
              if c.tag == mid.rows[k].session && LaterInTime(Cursor(mid, k), c.at) then [c] else []
  {
    hide CreditCharge; hide UniqueRows; hide Find;
    ChargeCredits(mid, c, i, faults, k);
    if c.tag == mid.rows[k].session {
      FindUnique(mid.rows, BySession(c.tag), k);
    }
  }

  lemma {:induction false} PollCredits(st: State, charges: seq<Charge>, n: nat, faults: Faults, k: nat)
    requires Consistent(st) && !st.freeMode && n <= |charges| && PollPrefix(st, charges, n, faults).ok
    requires k < |st.rows| && HasTagPrefix(st.rows[k].session)
    requires forall i :: 0 <= i < |charges| ==> charges[i].chargeId != ""
    ensures Credits(PollPrefix(st, charges, n, faults).effects, k)
              == Taken(st.rows[k].lastChargedAt, Tagged(charges[..n], st.rows[k].session))
  {
    hide CreditCharge; hide Credits; hide Consistent; hide LegalRun; hide Replay; hide HasTagPrefix; hide UpTo;
    var session, cursor := st.rows[k].session, st.rows[k].lastChargedAt;
    if n == 0 {
      CreditsOfTwo(Enable(""), Enable(""), k);
    } else {
      PollCredits(st, charges, n - 1, faults, k);
      var before := PollPrefix(st, charges, n - 1, faults);
      var mid := Replay(st, before.effects);
      var c := charges[n - 1];
      PollPrefixLegal(st, charges, n - 1, faults);
      RunKeepsConsistent(st, before.effects);
      ConsistentUnique(mid);
      PollQuiet(st, charges, n - 1, faults);
      ModeKept(st, before.effects);
      SessionsKept(st, charges, n - 1, faults);
      CreditsInOrder(st, before.effects, k);
      CursorIsLast(cursor, Credits(before.effects, k), Cursor(mid, k));
      StepCredits(mid, c, n - 1, faults, k);
      CreditsConcat(before.effects, CreditCharge(mid, c, n - 1, faults).effects, k);
      TaggedStep(charges, n, session);
      TakenStep(cursor, Tagged(charges[..n - 1], session), c);
    }
  }

  lemma CursorIsLast(start: Option<Time>, credits: seq<Charge>, cursor: Option<Time>)
    requires UpTo(start, credits, cursor)
    ensures cursor == LastAt(start, credits)
  {
  }

  lemma TakenStep(cursor: Option<Time>, charges: seq<Charge>, c: Charge)
    ensures var before := Taken(cursor, charges);
            Taken(cursor, charges + [c]) == before + (if LaterInTime(LastAt(cursor, before), c.at) then [c] else [])
    ensures charges + [] == charges
  {
    assert (charges + [c])[..|charges|] == charges;
  }

  lemma TaggedStep(charges: seq<Charge>, n: nat, tag: string)
    requires 0 < n <= |charges|
    ensures Tagged(charges[..n], tag)
        == Tagged(charges[..n - 1], tag) + (if charges[n - 1].tag == tag then [charges[n - 1]] else [])
  {
    assert charges[..n][..n - 1] == charges[..n - 1];
  }

  /** How many writes of a journal credit a charge to a row. */
  function CreditWrites(effects: seq<Effect>): nat
    decreases |effects|
  {
    if effects == [] then 0
    else
      var n := |effects| - 1;
      CreditWrites(effects[..n]) + (if effects[n].Save? && CreditOf(effects[n], effects[n].k) != [] then 1 else 0)
  }

  lemma {:induction false} WritesConcat(a: seq<Effect>, b: seq<Effect>)
    ensures CreditWrites(a + b) == CreditWrites(a) + CreditWrites(b)
    decreases |b|
  {
    if b == [] {
      assert a + b == a;
    } else {
      var n := |b| - 1;
      assert (a + b)[..|a + b| - 1] == a + b[..n];
      WritesConcat(a, b[..n]);
    }
  }

  lemma WritesOfThree(e: Effect, f: Effect, g: Effect)
    ensures CreditWrites([]) == 0
    ensures !e.Save? && f.Save? && CreditOf(f, f.k) != [] && !g.Save? ==>
              CreditWrites([f, g]) == 1 && CreditWrites([e] + [f, g]) == 1
    ensures !g.Save? ==> CreditWrites([g]) == 0
  {
    assert [f, g][..1] == [f] && [f][..0] == [] && [g][..0] == [] && [e][..0] == [];
    WritesConcat([e], [f, g]);
  }

  lemma ChargeCounted(st: State, c: Charge, i: nat, faults: Faults)
    requires !st.freeMode && CreditCharge(st, c, i, faults).ok
    ensures CreditWrites(CreditCharge(st, c, i, faults).effects) == CreditCharge(st, c, i, faults).count
  {
    hide AddMonths; hide UniqueRows; hide Find; hide CreditWrites; hide Settled; hide Credited; hide WithCursor;
    var t := CreditCharge(st, c, i, faults);
    var found := Find(st.rows, BySession(c.tag));
    WritesOfThree(Enable(""), Enable(""), Enable(""));
    if found.Some? && !Settled(st.rows[found.value], c) {
      var m := st.rows[found.value];
      if m.KeyBound() {
        assert |t.effects| == 2 && t.effects == [t.effects[0], t.effects[1]];
        WritesOfThree(Enable(""), t.effects[0], t.effects[1]);
      } else {
        assert |t.effects| == 3 && t.effects == [t.effects[0]] + [t.effects[1], t.effects[2]];
        WritesOfThree(t.effects[0], t.effects[1], t.effects[2]);
      }
    }
  }

  /** A successful poll reports as many charges as it credited. */
  lemma PollCounts(st: State, feed: seq<Charge>, faults: Faults)
    requires !st.freeMode && Poll(st, Some(feed), faults).ok
    ensures Poll(st, Some(feed), faults).count == CreditWrites(Poll(st, Some(feed), faults).effects)
  {
    PrefixCounts(st, feed, |feed|, faults);
  }

  lemma {:induction false} PrefixCounts(st: State, charges: seq<Charge>, n: nat, faults: Faults)
    requires !st.freeMode && n <= |charges| && PollPrefix(st, charges, n, faults).ok
    ensures PollPrefix(st, charges, n, faults).count == CreditWrites(PollPrefix(st, charges, n, faults).effects)
  {
    hide CreditCharge; hide Replay; hide CreditOf;
    if n > 0 {
      PrefixCounts(st, charges, n - 1, faults);
      var before := PollPrefix(st, charges, n - 1, faults);
      var mid := Replay(st, before.effects);
      PollQuiet(st, charges, n - 1, faults);
      ModeKept(st, before.effects);
      ChargeCounted(mid, charges[n - 1], n - 1, faults);
      WritesConcat(before.effects, CreditCharge(mid, charges[n - 1], n - 1, faults).effects);
    }
  }

  /**
   * Over a complete feed a successful poll credits to a row exactly the
   * contributions of its tag that are later than its cursor and all before
   * them. It credits every one of them if and only if their times strictly
   * rise after the cursor.
   */
  lemma ContributionsCredited(st: State, orders: seq<Order>, tier: string, feed: seq<Charge>, faults: Faults, k: nat)
    requires Consistent(st) && !st.freeMode && multiset(feed) == multiset(Contributions(orders, tier))
    requires Poll(st, Some(feed), faults).ok && k < |st.rows| && HasTagPrefix(st.rows[k].session)
    ensures var mine := Tagged(feed, st.rows[k].session);
            var credited := Credits(Poll(st, Some(feed), faults).effects, k);
            && credited == Taken(st.rows[k].lastChargedAt, mine)
            && (credited == mine <==> StrictlyLater(mine, st.rows[k].lastChargedAt))
  {
    hide PollPrefix; hide Contributions; hide Consistent; hide Credits; hide Taken; hide StrictlyLater;
    forall i | 0 <= i < |feed| ensures feed[i].chargeId != "" {
      assert feed[i] in multiset(feed);
      ContributionsTagged(orders, tier, feed[i]);
    }
    PollCredits(st, feed, |feed|, faults, k);
    assert feed[..|feed|] == feed;
    AllTakenExactlyWhen(st.rows[k].lastChargedAt, Tagged(feed, st.rows[k].session));
  }
}
