/** What charges buy: each charge is credited once, and the time bought is neither lost nor counted twice. */
module PaidTime {
  import opened Calendar
  import opened Domain
  import opened Lifecycle
  import opened Legality
  import opened Runs

  // ---------- every charge at most once ----------

  /** The charge a write credits to row k. */
  function CreditOf(e: Effect, k: nat): seq<Charge> {
    if !e.Save? || e.k != k then []
    else
      match e.why
      case Paid(Some(c), _, _) => [c]
      case Renewed(c, _) => [c]
      case _ => []
  }

  /** The charges a journal credits to row k, in order. */
  function Credits(effects: seq<Effect>, k: nat): seq<Charge>
    decreases |effects|
  {
    if effects == [] then []
    else Credits(effects[..|effects| - 1], k) + CreditOf(effects[|effects| - 1], k)
  }

  function Cursor(st: State, k: nat): Option<Time> {
    if k < |st.rows| then st.rows[k].lastChargedAt else None
  }

  predicate LaterInTime(a: Option<Time>, b: Time) {
    a.Some? ==> a.value < b
  }

  ghost predicate StrictlyLater(charges: seq<Charge>, start: Option<Time>) {
    && (forall i :: 0 <= i < |charges| ==> LaterInTime(start, charges[i].at))
    && (forall i, j :: 0 <= i < j < |charges| ==> charges[i].at < charges[j].at)
  }

  lemma WriteMovesCursor(st: State, e: Effect, k: nat)
    requires Legal(st, e)
    ensures var credit := CreditOf(e, k);
            if credit == [] then Cursor(Apply(st, e), k) == Cursor(st, k)
            else LaterInTime(Cursor(st, k), credit[0].at) && Cursor(Apply(st, e), k) == Some(credit[0].at)
  {
    hide AddMonths;
  }

  lemma CreditSize(e: Effect, k: nat)
    ensures |CreditOf(e, k)| <= 1
  {
  }

  /** Later and later charges that end at a cursor. */
  ghost predicate UpTo(start: Option<Time>, charges: seq<Charge>, cursor: Option<Time>) {
    && StrictlyLater(charges, start)
    && cursor == if charges == [] then start else Some(charges[|charges| - 1].at)
  }

  predicate Moves(cursor: Option<Time>, credit: seq<Charge>, next: Option<Time>) {
    if credit == [] then next == cursor
    else LaterInTime(cursor, credit[0].at) && next == Some(credit[0].at)
  }

  lemma OneLater(start: Option<Time>, charges: seq<Charge>, cursor: Option<Time>, credit: seq<Charge>,
                 next: Option<Time>)
    requires UpTo(start, charges, cursor) && |credit| <= 1 && Moves(cursor, credit, next)
    ensures UpTo(start, charges + credit, next)
  {
  }

  lemma WriteMoves(st: State, e: Effect, k: nat)
    requires Legal(st, e)
    ensures |CreditOf(e, k)| <= 1 && Moves(Cursor(st, k), CreditOf(e, k), Cursor(Apply(st, e), k))
  {
    CreditSize(e, k);
    WriteMovesCursor(st, e, k);
  }

  lemma {:induction false} CreditsInOrder(st: State, effects: seq<Effect>, k: nat)
    requires LegalRun(st, effects)
    ensures UpTo(Cursor(st, k), Credits(effects, k), Cursor(Replay(st, effects), k))
    decreases |effects|
  {
    hide Legal; hide Apply; hide CreditOf; hide Cursor; hide UpTo; hide Moves;
    if effects == [] {
      NothingLater(Cursor(st, k));
    } else {
      var n := |effects| - 1;
      CreditsInOrder(st, effects[..n], k);
      WriteMoves(Replay(st, effects[..n]), effects[n], k);
      OneLater(Cursor(st, k), Credits(effects[..n], k), Cursor(Replay(st, effects[..n]), k), CreditOf(effects[n], k),
               Cursor(Replay(st, effects), k));
    }
  }

  lemma NothingLater(start: Option<Time>)
    ensures UpTo(start, [], start)
  {
  }

  /**
   * Over any run of any service calls, with any faults, the charges credited
   * to a row are strictly later and later, so none is credited twice, and the
   * payment cursor of the row is the last of them.
   */
  lemma CreditedAtMostOnce(st: State, ops: seq<Op>, k: nat)
    requires Consistent(st)
    ensures var credits := Credits(Journal(st, ops), k);
            && StrictlyLater(credits, Cursor(st, k))
            && (forall i, j :: 0 <= i < j < |credits| ==> credits[i] != credits[j])
            && Cursor(Run(st, ops), k) == (if credits == [] then Cursor(st, k) else Some(credits[|credits| - 1].at))
  {
    hide Journal; hide Credits; hide LegalRun; hide Consistent;
    RunLegal(st, ops);
    CreditsInOrder(st, Journal(st, ops), k);
  }

  // ---------- paid time ----------

  /** A credited charge buys `months` from `base` to `until`. */
  datatype Grant = Grant(charge: Charge, base: Time, until: Time, months: int)

  function GrantOf(e: Effect, k: nat): seq<Grant> {
    if !e.Save? || e.k != k then []
    else
      match e.why
      case Paid(Some(c), base, months) => [Grant(c, base, AddMonths(base, months), months)]
      case Renewed(c, base) => [Grant(c, base, AddMonths(base, 1), 1)]
      case _ => []
  }

  function Grants(effects: seq<Effect>, k: nat): seq<Grant>
    decreases |effects|
  {
    if effects == [] then []
    else Grants(effects[..|effects| - 1], k) + GrantOf(effects[|effects| - 1], k)
  }

  function MonthsBought(grants: seq<Grant>): int
    decreases |grants|
  {
    if grants == [] then 0 else MonthsBought(grants[..|grants| - 1]) + grants[|grants| - 1].months
  }

  /** The grants follow one another without overlap, and none starts before its charge. */
  ghost predicate Disjoint(grants: seq<Grant>) {
    && (forall i :: 0 <= i < |grants| ==>
          grants[i].charge.at <= grants[i].base < grants[i].until && 1 <= grants[i].months)
    && (forall i, j :: 0 <= i < j < |grants| ==>
          grants[i].until <= grants[j].base && grants[i].charge.at < grants[j].charge.at)
  }

  /** The row of a key-bound mailbox shows its last grant, and within what bounds the months bought put it. */
  ghost predicate Shows(st: State, k: nat, grants: seq<Grant>) {
    && Disjoint(grants)
    && (grants == [] ==> k < |st.rows| ==> st.rows[k].lastChargedAt.None? && st.rows[k].expiresAt.None?)
    && (grants != [] ==>
          && k < |st.rows|
          && var last := grants[|grants| - 1];
             st.rows[k].expiresAt == Some(last.until) && st.rows[k].lastChargedAt == Some(last.charge.at)
             && WithinBounds(grants, last.until))
    && (k < |st.rows| ==> st.rows[k].grantedMonths == 0 || st.rows[k].grantedMonths == GIFT_MONTHS)
  }

  ghost predicate WithinBounds(grants: seq<Grant>, until: Time)
    requires grants != []
  {
    var months := MonthsBought(grants);
    grants[0].charge.at + 28 * DAY * months <= until <= grants[|grants| - 1].charge.at + 31 * DAY * months
  }

  /** What happens to the key-bound mailboxes of a paid-mode deployment. */
  const PAID_KINDS: set<Kind> := {Inserts, Charges, Prices, Tokens, Lapses, Syncs, Other}

  lemma SpansAdd(a: int, b: int)
    ensures 28 * DAY * (a + b) == 28 * DAY * a + 28 * DAY * b && 31 * DAY * (a + b) == 31 * DAY * a + 31 * DAY * b
  {
  }

  lemma NextGrant(grants: seq<Grant>, g: Grant)
    requires Disjoint(grants) && g.charge.at <= g.base && g.until == AddMonths(g.base, g.months) && g.months >= 1
    requires grants != [] ==>
      var last := grants[|grants| - 1];
      last.charge.at < g.charge.at && WithinBounds(grants, last.until) && g.base == Later(g.charge.at, Some(last.until))
    requires grants == [] ==> g.base == g.charge.at
    ensures Disjoint(grants + [g])
    ensures WithinBounds(grants + [g], g.until)
  {
    hide AddMonths;
    assert Disjoint(grants + [g]) by {
      AddMonthsSpan(g.base, g.months);
      if grants != [] {
        var last := grants[|grants| - 1];
        forall i | 0 <= i < |grants| ensures grants[i].until <= last.until && grants[i].charge.at <= last.charge.at {}
      }
    }
    assert WithinBounds(grants + [g], g.until) by {
      BoundsGrow(grants, g);
    }
  }

  lemma {:induction false} BoughtSome(grants: seq<Grant>)
    requires forall i :: 0 <= i < |grants| ==> 1 <= grants[i].months
    ensures MonthsBought(grants) >= |grants|
    decreases |grants|
  {
    if grants != [] {
      BoughtSome(grants[..|grants| - 1]);
    }
  }

  lemma BoundsGrow(grants: seq<Grant>, g: Grant)
    requires forall i :: 0 <= i < |grants| ==> 1 <= grants[i].months
    requires g.charge.at <= g.base && g.until == AddMonths(g.base, g.months) && g.months >= 1
    requires grants != [] ==>
      var last := grants[|grants| - 1];
      last.charge.at < g.charge.at && WithinBounds(grants, last.until) && g.base == Later(g.charge.at, Some(last.until))
    requires grants == [] ==> g.base == g.charge.at
    ensures WithinBounds(grants + [g], g.until)
  {
    hide AddMonths;
    AddMonthsSpan(g.base, g.months);
    var all := grants + [g];
    assert all[..|all| - 1] == grants;
    var before, months := MonthsBought(grants), MonthsBought(all);
    assert months == before + g.months;
    BoughtSome(grants);
    SpansAdd(before, g.months);
    if grants == [] {
      assert before == 0;
    } else {
      assert all[0] == grants[0];
    }
    assert 31 * DAY * before >= 0;
  }

  lemma WriteShows(st: State, e: Effect, k: nat, grants: seq<Grant>)
    requires !st.freeMode && Legal(st, e) && KindOf(e) in PAID_KINDS
    requires k < |Apply(st, e).rows| ==> Apply(st, e).rows[k].KeyBound()
    requires Shows(st, k, grants)
    ensures Shows(Apply(st, e), k, grants + GrantOf(e, k))
  {
    hide AddMonths; hide Disjoint; hide WithinBounds; hide UniqueRows;
    var after := Apply(st, e);
    if e.Save? && e.k == k && KindOf(e) == Charges {
      var m := st.rows[k];
      var g := GrantOf(e, k)[0];
      assert g.until == AddMonths(g.base, g.months) && g.base == Later(g.charge.at, m.expiresAt);
      NextGrant(grants, g);
    } else {
      assert grants + GrantOf(e, k) == grants;
    }
  }

  lemma ShowsNothing(st: State, k: nat)
    requires k >= |st.rows|
    ensures Shows(st, k, [])
  {
  }

  lemma KindKeepsMode(st: State, e: Effect)
    requires KindOf(e) != Modes
    ensures Apply(st, e).freeMode == st.freeMode
  {
  }

  lemma {:induction false} WritesShow(st: State, effects: seq<Effect>, k: nat)
    requires !st.freeMode && LegalRun(st, effects) && Only(effects, PAID_KINDS) && k >= |st.rows|
    requires k < |Replay(st, effects).rows| ==> Replay(st, effects).rows[k].KeyBound()
    ensures Shows(Replay(st, effects), k, Grants(effects, k)) && !Replay(st, effects).freeMode
    decreases |effects|
  {
    hide Legal; hide Apply; hide KindOf; hide GrantOf; hide Disjoint; hide WithinBounds;
    if effects == [] {
      ShowsNothing(st, k);
    } else {
      var n := |effects| - 1;
      var mid := Replay(st, effects[..n]);
      WriteKeepsOwner(mid, effects[n], k);
      KindKeepsMode(mid, effects[n]);
      WritesShow(st, effects[..n], k);
      WriteShows(mid, effects[n], k, Grants(effects[..n], k));
    }
  }

  lemma WriteKeepsOwner(st: State, e: Effect, k: nat)
    requires Legal(st, e)
    ensures k < |st.rows| ==> k < |Apply(st, e).rows| && Apply(st, e).rows[k].accountId == st.rows[k].accountId
  {
  }

  predicate OfPaidDeployment(op: Op) {
    op.Claiming? || op.Creating? || op.Polling? || op.Sweeping? || op.Disabling? || op.ResolvingKey? ||
        op.ResolvingToken?
  }

  /**
   * Paid-time conservation. In any paid-mode run from an empty table, the
   * intervals granted to a key-bound mailbox are disjoint and ordered, none
   * starts before its charge, its expiry is the end of the last one, and n
   * months bought end 28n days after the first charge at the earliest and 31n
   * days after the last charge at the latest.
   */
  lemma PaidTimeConserved(st: State, ops: seq<Op>, k: nat)
    requires st.rows == [] && !st.freeMode
    requires forall i :: 0 <= i < |ops| ==> OfPaidDeployment(ops[i])
    requires k < |Run(st, ops).rows| && Run(st, ops).rows[k].KeyBound()
    ensures var grants := Grants(Journal(st, ops), k);
            && Disjoint(grants)
            && Run(st, ops).rows[k].expiresAt == (if grants == [] then None else Some(grants[|grants| - 1].until))
            && (grants != [] ==> WithinBounds(grants, Run(st, ops).rows[k].expiresAt.value))
  {
    RunLegal(st, ops);
    RunKinds(st, ops, PAID_KINDS);
    WritesShow(st, Journal(st, ops), k);
  }
}
