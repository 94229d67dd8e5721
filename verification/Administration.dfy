/** What administrators do, and what free mode and unknown sessions leave alone. */
module Administration {
  import opened Calendar
  import opened Domain
  import opened Lifecycle
  import opened Legality
  import opened Access

  // ---------- administrative calls ----------

  /** A renewal makes the row active for the time given, in paid mode; the login is left to the next access. */
  lemma RenewalExactly(st: State, k: nat, paidAt: Time, expiresAt: Time, faults: Faults)
    requires UniqueRows(st.rows) && k < |st.rows| && !st.freeMode
    ensures var row := st.rows[k].(status := Active, paidAt := Some(paidAt), expiresAt := Some(expiresAt));
            var t := AdminRenew(st, st.rows[k].id, paidAt, expiresAt, faults);
            && (t.ok <==> Call(Lookup, 0) !in faults && Call(RowWrite, 0) !in faults)
            && Replay(st, t.effects) == if t.ok then st.(rows := st.rows[k := row]) else st
  {
    hide UniqueRows; hide Find; hide Replay;
    var row := st.rows[k].(status := Active, paidAt := Some(paidAt), expiresAt := Some(expiresAt));
    FindUnique(st.rows, ById(st.rows[k].id), k);
    UniqueWith(st.rows, k, row);
    ReplayNothing(st);
    ReplayOne(st, Save(k, row, Admin));
  }

  /** An administrative expiry does what the sweep does, to one row, due or not. */
  lemma ExpiryExactly(st: State, k: nat, faults: Faults)
    requires UniqueRows(st.rows) && k < |st.rows| && !st.freeMode
    ensures var t := AdminExpire(st, st.rows[k].id, faults);
            var after := Replay(st, t.effects);
            if Call(Lookup, 0) in faults then !t.ok && after == st
            else
              && ExpiredOnSight(st, after, k, faults)
              && (t.ok <==> Call(Provision, 0) !in faults && Call(RowWrite, 0) !in faults)
  {
    hide UniqueRows; hide Find; hide Replay; hide Expire;
    FindUnique(st.rows, ById(st.rows[k].id), k);
    ReplayNothing(st);
    ExpiresRow(st, k, Admin, faults);
  }

  /** The row that a reset finds; one that it fails to look up counts as missing. */
  function Reset(st: State, id: string, c: Claim): (found: Option<nat>)
    ensures found.Some? ==> found.value < |st.rows| && st.rows[found.value].id == id
  {
    if Call(Lookup, 0) in c.faults then None else Find(st.rows, ById(id))
  }

  /** The row of a reset: an old one keeps all but its key and its time, a new one starts with nothing else. */
  function ResetRow(st: State, id: string, fingerprint: string, expiresAt: Time, c: Claim): Mailbox {
    var found := Reset(st, id, c);
    if found.Some? then
      st.rows[found.value].(fingerprint := fingerprint, status := Active, paidAt := Some(c.now),
                            expiresAt := Some(expiresAt))
    else
      Mailbox(id, "", fingerprint, c.login, c.accessToken, "", "", "", None, "", None, Active, 0, false,
              Some(c.now), Some(expiresAt))
  }

  /** The table with the row of the reset. */
  function ResetRows(st: State, id: string, fingerprint: string, expiresAt: Time, c: Claim): seq<Mailbox> {
    var found := Reset(st, id, c);
    var row := ResetRow(st, id, fingerprint, expiresAt, c);
    if found.Some? then st.rows[found.value := row] else st.rows + [row]
  }

  /**
   * A reset gives the key the mailbox until the time given, in both modes: it
   * is stored, then its login is enabled, and access by the key follows.
   */
  lemma ResetExactly(st: State, id: string, fingerprint: string, expiresAt: Time, c: Claim, later: Time)
    requires fingerprint != "" && UniqueRows(ResetRows(st, id, fingerprint, expiresAt, c))
    ensures var t := Reprovision(st, id, fingerprint, expiresAt, c);
            var after := Replay(st, t.effects);
            var row := ResetRow(st, id, fingerprint, expiresAt, c);
            var drawn := Reset(st, id, c).Some? || (Call(Token, 1) !in c.faults && Call(Token, 2) !in c.faults);
            var stored := drawn && Call(RowWrite, 0) !in c.faults;
            var served := stored && Call(Provision, 0) !in c.faults;
            && (t.ok <==> served)
            && after == st.(rows := if stored then ResetRows(st, id, fingerprint, expiresAt, c) else st.rows,
                            enabled := if served then st.enabled[row.login := true] else st.enabled)
            && (stored ==> (ResolveByKey(after, fingerprint, later, {}).ok <==> later < expiresAt))
  {
    hide UniqueRows; hide Replay; hide ResolveByKey; hide Reset;
    ResetFound(st, id, c);
    hide Find;
    var t := Reprovision(st, id, fingerprint, expiresAt, c);
    var found := Reset(st, id, c);
    var row := ResetRow(st, id, fingerprint, expiresAt, c);
    var first := if found.Some? then Save(found.value, row, Admin) else Insert(row, true);
    assert [first] + [Enable(row.login)] == [first, Enable(row.login)] && [first] + [] == [first];
    ReplayNothing(st);
    ReplayOne(st, first);
    ReplayTwo(st, first, Enable(row.login));
    var after := Replay(st, t.effects);
    if t.effects != [] {
      AccessUntil(after, if found.Some? then found.value else |st.rows|, fingerprint, later);
    }
  }

  lemma ResetFound(st: State, id: string, c: Claim)
    ensures Reset(st, id, c) == if Call(Lookup, 0) !in c.faults && Find(st.rows, ById(id)).Some?
                                then Find(st.rows, ById(id)) else None
  {
  }

  lemma AccessUntil(st: State, k: nat, fingerprint: string, later: Time)
    requires KeyHolder(st, k, fingerprint)
    requires st.rows[k].status == Active && st.rows[k].paidAt.Some? && st.rows[k].expiresAt.Some?
    ensures ResolveByKey(st, fingerprint, later, {}).ok <==> later < st.rows[k].expiresAt.value
  {
    hide UniqueRows; hide ResolveByKey; hide Replay;
    KeyAccess(st, k, fingerprint, later, {});
  }

  // ---------- nothing to do ----------

  /** In free mode nothing is charged, expired or swept: these calls succeed, write nothing and count nothing. */
  lemma FreeModeInert(st: State, op: Op)
    requires st.freeMode && Answers(st, op)
    requires op.Paying? || op.Polling? || op.ReconcilingPending? || op.Sweeping? || op.Disabling? || op.Renewing? ||
             op.Expiring?
    ensures Exec(st, op) == Trace([], true, 0)
  {
  }

  /** What cannot be found or listed changes nothing: a session, a token, a key, an ID, or the rows or charges. */
  lemma NothingFound(st: State, op: Op)
    requires Answers(st, op)
    requires match op
             case Paying(session, _, _) => !st.freeMode && Find(st.rows, BySession(session)).None?
             case Activating(hash, _, _) => hash == "" || Find(st.rows, ByTokenHash(hash)).None?
             case ResolvingKey(key, _, _) => key == "" || Find(st.rows, ByFingerprint(key)).None?
             case ResolvingToken(token, _, _) => Find(st.rows, ByAccessToken(token)).None?
             case Renewing(id, _, _, _) => !st.freeMode && Find(st.rows, ById(id)).None?
             case Expiring(id, _) => !st.freeMode && Find(st.rows, ById(id)).None?
             case Polling(feed, _) => !st.freeMode && feed.None?
             case ReconcilingPending(_, _, faults) => !st.freeMode && Call(Listing, 0) in faults
             case Sweeping(_, faults) => !st.freeMode && Call(Listing, 0) in faults
             case Disabling(faults) => !st.freeMode && Call(Listing, 0) in faults
             case Switching(_, _, faults) => !st.freeMode || Call(BulkWrite, 0) in faults
             case _ => false
    ensures Exec(st, op) == Trace([], false, 0)
  {
    hide Find;
  }
}
