/** An expired key-bound mailbox has no enabled login, in the middle of calls included. */
module Revocation {
  import opened Domain
  import opened Lifecycle
  import opened Legality
  import opened Runs

  ghost predicate Revoked(st: State) {
    forall k :: 0 <= k < |st.rows| && st.rows[k].KeyBound() && st.rows[k].status == Expired ==>
        !IsEnabled(st, st.rows[k].login)
  }

  lemma WriteKeepsRevoked(st: State, e: Effect)
    requires Consistent(st) && Revoked(st) && Legal(st, e)
    ensures Revoked(Apply(st, e))
  {
    match e
    case Insert(row, _) => assert Apply(st, e).rows[..|st.rows|] == st.rows;
    case _ =>
  }

  lemma {:induction false} WritesKeepRevoked(st: State, effects: seq<Effect>)
    requires Consistent(st) && Revoked(st) && LegalRun(st, effects)
    ensures Revoked(Replay(st, effects))
    decreases |effects|
  {
    if effects != [] {
      var n := |effects| - 1;
      WritesKeepRevoked(st, effects[..n]);
      RunKeepsConsistent(st, effects[..n]);
      WriteKeepsRevoked(Replay(st, effects[..n]), effects[n]);
    }
  }

  /** Over any run, after every single write of every call. */
  lemma ExpiredNeverEnabled(st: State, ops: seq<Op>, j: nat)
    requires Consistent(st) && Revoked(st) && j <= |Journal(st, ops)|
    ensures Revoked(Replay(st, Journal(st, ops)[..j]))
  {
    RunLegal(st, ops);
    LegalPrefix(st, Journal(st, ops), j);
    WritesKeepRevoked(st, Journal(st, ops)[..j]);
  }

  lemma DisableOne(st: State, m: Mailbox)
    ensures var after := Apply(st, Disable(m.login));
            && after.rows == st.rows && !IsEnabled(after, m.login)
            && (forall login :: IsEnabled(after, login) ==> IsEnabled(st, login))
  {
  }

  lemma {:induction false} DisablePrefixEffect(st: State, listed: seq<nat>, n: nat, faults: Faults)
    requires n <= |listed| && forall i :: 0 <= i < |listed| ==> listed[i] < |st.rows|
    requires DisablePrefix(st, listed, n, faults).ok
    ensures var after := Replay(st, DisablePrefix(st, listed, n, faults).effects);
            && after.rows == st.rows
            && (forall login :: IsEnabled(after, login) ==> IsEnabled(st, login))
            && (forall i :: 0 <= i < n ==> !IsEnabled(after, st.rows[listed[i]].login))
            && DisablePrefix(st, listed, n, faults).count == n
  {
    hide Apply; hide IsEnabled; hide Replay;
    if n == 0 {
      ReplayNothing(st);
    } else {
      DisablePrefixEffect(st, listed, n - 1, faults);
      var before := DisablePrefix(st, listed, n - 1, faults);
      var e := Disable(st.rows[listed[n - 1]].login);
      ReplayConcat(st, before.effects, [e]);
      ReplayOne(Replay(st, before.effects), e);
      DisableOne(Replay(st, before.effects), st.rows[listed[n - 1]]);
    }
  }

  /** It disables the logins of the expired rows in table order up to the first that fails, and counts them. */
  lemma DisableExpiredStopsExactly(st: State, faults: Faults)
    requires !st.freeMode && Call(Listing, 0) !in faults
    ensures var t := DisableExpired(st, faults);
            var listed := Select(st.rows, ExpiredRows);
            && t.count == |t.effects| <= |listed| && (t.ok <==> t.count == |listed|)
            && (forall i :: 0 <= i < t.count ==>
                  t.effects[i] == Disable(st.rows[listed[i]].login) && Call(Provision, i) !in faults)
            && (t.count < |listed| ==> Call(Provision, t.count) in faults)
  {
    var listed := Select(st.rows, ExpiredRows);
    DisableGoesOn(st, listed, |listed|, faults);
  }

  lemma {:induction false} DisableGoesOn(st: State, listed: seq<nat>, n: nat, faults: Faults)
    requires n <= |listed| && forall i :: 0 <= i < |listed| ==> listed[i] < |st.rows|
    ensures var t := DisablePrefix(st, listed, n, faults);
            && t.count == |t.effects| <= n && (t.ok <==> t.count == n)
            && (forall i :: 0 <= i < t.count ==>
                  t.effects[i] == Disable(st.rows[listed[i]].login) && Call(Provision, i) !in faults)
            && (t.count < n ==> Call(Provision, t.count) in faults)
  {
    if n > 0 {
      DisableGoesOn(st, listed, n - 1, faults);
    }
  }

  /**
   * A successful DisableExpiredMailboxes establishes the property, for
   * account-bound rows too, from any state at all, and enables no login.
   */
  lemma DisableExpiredRevokes(st: State, faults: Faults)
    requires !st.freeMode && DisableExpired(st, faults).ok
    ensures var after := Replay(st, DisableExpired(st, faults).effects);
            && after.rows == st.rows
            && (forall k :: 0 <= k < |after.rows| && after.rows[k].status == Expired ==>
                  !IsEnabled(after, after.rows[k].login))
            && (forall login :: IsEnabled(after, login) ==> IsEnabled(st, login))
            && Revoked(after)
  {
    var listed := Select(st.rows, ExpiredRows);
    DisablePrefixEffect(st, listed, |listed|, faults);
  }
}
