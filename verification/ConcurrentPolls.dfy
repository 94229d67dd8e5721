/**
 * Polls from the ticker, the admin endpoint and claims, interleaved at will.
 *
 * Each charge takes two steps, the lookup that copies a row and the write that
 * saves the copy. The mutex around a poll makes every interleaving end in the
 * rows of the polls run one after the other.
 */
module ConcurrentPolls {
  import opened Calendar
  import opened Domain
  import opened Lifecycle
  import opened PollSteps
  import opened Legality
  import opened Runs
  import opened PaidTime
  import opened PollConvergence

  /** Where a caller of ReconcileOpenCollectivePayments is; `poll` is the feed it got and the calls that will fail. */
  datatype Thread =
    | Outside
    | Locked                                                      // holds the mutex, has not listed the charges
    | Between(poll: Attempt, i: nat)                              // i charges are done
    | Looked(poll: Attempt, i: nat, found: Option<(nat, Mailbox)>)   // has copied the row of charge i

  /**
   * `served` are the polls that ended, in the order in which they held the
   * mutex, and `journal` is every write that any step made, as it was made.
   */
  datatype World = World(
    st: State, owner: Option<nat>, threads: map<nat, Thread>, served: seq<Attempt>, journal: seq<Effect>)

  datatype Step =
    | Acquire(t: nat)
    | List(t: nat, poll: Attempt)
    | Look(t: nat)
    | Write(t: nat)
    | Finish(t: nat)

  function ThreadOf(w: World, t: nat): Thread {
    if t in w.threads then w.threads[t] else Outside
  }

  /** A step the thread can take; only Acquire may have to wait. */
  predicate Ready(w: World, s: Step) {
    var thread := ThreadOf(w, s.t);
    match s
    case Acquire(_) => thread == Outside && w.owner.None?
    case List(_, _) => thread == Locked
    case Look(_) => thread.Between? && thread.poll.feed.Some? && thread.i < |thread.poll.feed.value|
    case Write(_) => thread.Looked?
    case Finish(_) => thread.Between? && thread.poll.feed.Some? && thread.i >= |thread.poll.feed.value|
  }

  /** Unlock, by returning from the poll. */
  function Return(w: World, t: nat, poll: Attempt): World {
    w.(owner := None, threads := w.threads[t := Outside], served := w.served + [poll])
  }

  function Take(w: World, s: Step): World
    requires Ready(w, s)
  {
    var thread := ThreadOf(w, s.t);
    match s
    case Acquire(t) => w.(owner := Some(t), threads := w.threads[t := Locked])
    case List(t, poll) =>
      if poll.feed.None? then Return(w, t, poll) else w.(threads := w.threads[t := Between(poll, 0)])
    case Look(t) =>
      if Call(Lookup, thread.i) in thread.poll.faults then Return(w, t, thread.poll)
      else
        var found := Find(w.st.rows, BySession(thread.poll.feed.value[thread.i].tag));
        var copy := if found.None? then None else Some((found.value, w.st.rows[found.value]));
        w.(threads := w.threads[t := Looked(thread.poll, thread.i, copy)])
    case Write(t) =>
      if thread.poll.feed.None? || thread.i >= |thread.poll.feed.value| then w
      else
        var c := thread.poll.feed.value[thread.i];
        var write := if thread.found.None? then Trace([], true, 0)
                     else CreditCopy(w.st, thread.found.value.0, thread.found.value.1, c, thread.i, thread.poll.faults);
        var w' := w.(st := Replay(w.st, write.effects), journal := w.journal + write.effects);
        if write.ok then w'.(threads := w.threads[t := Between(thread.poll, thread.i + 1)])
        else Return(w', t, thread.poll)
    case Finish(t) => Return(w, t, thread.poll)
  }

  ghost predicate Ran(w: World, steps: seq<Step>, last: World)
    decreases |steps|
  {
    if steps == [] then w == last
    else
      var n := |steps| - 1;
      exists mid :: Ran(w, steps[..n], mid) && Ready(mid, steps[n]) && last == Take(mid, steps[n])
  }

  /** The writes of polls that run one after the other. */
  function PollsJournal(st: State, polls: seq<Attempt>): seq<Effect>
    decreases |polls|
  {
    if polls == [] then []
    else
      var n := |polls| - 1;
      PollsJournal(st, polls[..n]) + Poll(AfterPolls(st, polls[..n]), polls[n].feed, polls[n].faults).effects
  }

  /**
   * State and writes are those of the served polls one after the other, and then
   * of the part of the poll that holds the mutex.
   */
  ghost predicate Serial(st0: State, w: World) {
    var base := AfterPolls(st0, w.served);
    var done := PollsJournal(st0, w.served);
    match w.owner
    case None => w.st == base && w.journal == done && forall t: nat :: ThreadOf(w, t) == Outside
    case Some(o) =>
      && (forall t: nat :: t != o ==> ThreadOf(w, t) == Outside)
      && InPoll(base, w.st, ThreadOf(w, o))
      && w.journal == done + Written(base, ThreadOf(w, o))
  }

  /** What the poll that holds the mutex has written. */
  function Written(base: State, thread: Thread): seq<Effect> {
    if (thread.Between? || thread.Looked?) && thread.poll.feed.Some? && thread.i <= |thread.poll.feed.value|
    then PollPrefix(base, thread.poll.feed.value, thread.i, thread.poll.faults).effects
    else []
  }

  ghost predicate InPoll(base: State, st: State, thread: Thread) {
    match thread
    case Outside => false
    case Locked => st == base
    case Between(poll, i) => Reached(base, st, poll, i)
    case Looked(poll, i, found) =>
      && Reached(base, st, poll, i) && i < |poll.feed.value|
      && Call(Lookup, i) !in poll.faults
      && var k := Find(st.rows, BySession(poll.feed.value[i].tag));
         found == if k.None? then None else Some((k.value, st.rows[k.value]))
  }

  /** The poll did its first i charges without a failure. */
  ghost predicate Reached(base: State, st: State, poll: Attempt, i: nat) {
    && poll.feed.Some? && i <= |poll.feed.value|
    && var t := PollPrefix(base, poll.feed.value, i, poll.faults);
       t.ok && st == Replay(base, t.effects)
  }

  lemma ReturnSerial(st0: State, w: World, t: nat, poll: Attempt)
    requires forall o: nat :: o != t ==> ThreadOf(w, o) == Outside
    requires var base := AfterPolls(st0, w.served);
             && w.st == Replay(base, Poll(base, poll.feed, poll.faults).effects)
             && w.journal == PollsJournal(st0, w.served) + Poll(base, poll.feed, poll.faults).effects
    ensures Serial(st0, Return(w, t, poll))
  {
    hide PollPrefix;
    var after := Return(w, t, poll);
    assert after.served[..|after.served| - 1] == w.served;
    forall o: nat ensures ThreadOf(after, o) == Outside {
      assert o != t ==> ThreadOf(w, o) == Outside;
    }
  }

  /** A lookup and the write of its copy are the whole charge, when nothing came between. */
  lemma LookThenWrite(st: State, c: Charge, i: nat, faults: Faults)
    requires Call(Lookup, i) !in faults
    ensures var k := Find(st.rows, BySession(c.tag));
            CreditCharge(st, c, i, faults) ==
            if k.None? then Trace([], true, 0) else CreditCopy(st, k.value, st.rows[k.value], c, i, faults)
  {
  }

  /** The poll after one more charge, with that charge failed or not. */
  lemma OneMore(base: State, st: State, poll: Attempt, i: nat)
    requires Reached(base, st, poll, i) && i < |poll.feed.value| && !base.freeMode
    ensures var step := CreditCharge(st, poll.feed.value[i], i, poll.faults);
            var next := Replay(st, step.effects);
            var before := PollPrefix(base, poll.feed.value, i, poll.faults).effects;
            if step.ok then
              Reached(base, next, poll, i + 1)
              && PollPrefix(base, poll.feed.value, i + 1, poll.faults).effects == before + step.effects
            else
              next == Replay(base, Poll(base, poll.feed, poll.faults).effects)
              && Poll(base, poll.feed, poll.faults).effects == before + step.effects
  {
    hide CreditCharge;
    var charges := poll.feed.value;
    var before := PollPrefix(base, charges, i, poll.faults);
    var step := CreditCharge(st, charges[i], i, poll.faults);
    ReplayConcat(base, before.effects, step.effects);
    if !step.ok {
      PollStuck(base, charges, i + 1, |charges|, poll.faults);
    }
  }

  lemma StepSerial(st0: State, w: World, s: Step)
    requires Serial(st0, w) && Ready(w, s) && !AfterPolls(st0, w.served).freeMode
    ensures Serial(st0, Take(w, s))
  {
    hide PollPrefix; hide CreditCharge; hide CreditCopy; hide AfterPolls; hide PollsJournal; hide Replay;
    var thread := ThreadOf(w, s.t);
    var base := AfterPolls(st0, w.served);
    assert w.owner.Some? ==> thread == Outside || w.owner.value == s.t;
    match s
    case Acquire(t) => OthersKept(w, t, Locked, Take(w, s));
    case List(t, poll) =>
      if poll.feed.None? {
        ReplayNothing(base);
        ReturnSerial(st0, w, t, poll);
      } else {
        OthersKept(w, t, Between(poll, 0), Take(w, s));
        ReachedNothing(base, poll);
      }
    case Look(t) =>
      if Call(Lookup, thread.i) in thread.poll.faults {
        ReplayNothing(w.st);
        OneMore(base, w.st, thread.poll, thread.i);
        LookFails(w.st, thread.poll.feed.value[thread.i], thread.i, thread.poll.faults);
        ReturnSerial(st0, w, t, thread.poll);
      } else {
        OthersKept(w, t, ThreadOf(Take(w, s), t), Take(w, s));
      }
    case Write(t) => WriteSerial(st0, w, t);
    case Finish(t) =>
      ReturnSerial(st0, w, t, thread.poll);
  }

  lemma WriteSerial(st0: State, w: World, t: nat)
    requires Serial(st0, w) && Ready(w, Write(t)) && !AfterPolls(st0, w.served).freeMode
    ensures Serial(st0, Take(w, Write(t)))
  {
    hide PollPrefix; hide CreditCharge; hide CreditCopy; hide AfterPolls; hide PollsJournal; hide Replay;
    var thread := ThreadOf(w, t);
    var base := AfterPolls(st0, w.served);
    assert w.owner.Some? ==> thread == Outside || w.owner.value == t;
    var c := thread.poll.feed.value[thread.i];
    OneMore(base, w.st, thread.poll, thread.i);
    LookThenWrite(w.st, c, thread.i, thread.poll.faults);
    var step := CreditCharge(w.st, c, thread.i, thread.poll.faults);
    if step.ok {
      OthersKept(w, t, Between(thread.poll, thread.i + 1), Take(w, Write(t)));
    } else {
      var written := w.(st := Replay(w.st, step.effects), journal := w.journal + step.effects);
      forall o: nat | o != t ensures ThreadOf(written, o) == Outside {
        assert ThreadOf(written, o) == ThreadOf(w, o);
      }
      ReturnSerial(st0, written, t, thread.poll);
    }
  }

  lemma OthersKept(w: World, t: nat, thread: Thread, after: World)
    requires after.threads == w.threads[t := thread]
    ensures forall o: nat :: ThreadOf(after, o) == if o == t then thread else ThreadOf(w, o)
  {
    forall o: nat ensures ThreadOf(after, o) == if o == t then thread else ThreadOf(w, o) {
      assert o != t ==> (o in after.threads <==> o in w.threads);
    }
  }

  lemma ReachedNothing(base: State, poll: Attempt)
    requires poll.feed.Some?
    ensures Reached(base, base, poll, 0) && PollPrefix(base, poll.feed.value, 0, poll.faults).effects == []
  {
  }

  lemma LookFails(st: State, c: Charge, i: nat, faults: Faults)
    requires Call(Lookup, i) in faults
    ensures CreditCharge(st, c, i, faults) == Failed([])
  {
  }

  lemma {:induction false} PollsKeep(st: State, polls: seq<Attempt>)
    requires Consistent(st) && !st.freeMode
    ensures Consistent(AfterPolls(st, polls)) && !AfterPolls(st, polls).freeMode
    decreases |polls|
  {
    hide PollPrefix; hide Consistent;
    if polls != [] {
      var before := AfterPolls(st, polls[..|polls| - 1]);
      var last := polls[|polls| - 1];
      PollsKeep(st, polls[..|polls| - 1]);
      PollLegal(before, last.feed, last.faults);
      RunKeepsConsistent(before, Poll(before, last.feed, last.faults).effects);
      ModeKept(before, Poll(before, last.feed, last.faults).effects);
    }
  }

  ghost predicate Start(w: World) {
    w.owner.None? && w.served == [] && w.journal == [] && (forall t: nat :: ThreadOf(w, t) == Outside) &&
        Consistent(w.st) && !w.st.freeMode
  }

  lemma {:induction false} RunSerial(w: World, steps: seq<Step>, last: World)
    requires Start(w) && Ran(w, steps, last)
    ensures Serial(w.st, last)
    decreases |steps|
  {
    hide Take; hide Ready; hide Serial; hide Consistent;
    if steps == [] {
      StartSerial(w);
    } else {
      var n := |steps| - 1;
      var mid :| Ran(w, steps[..n], mid) && Ready(mid, steps[n]) && last == Take(mid, steps[n]);
      RunSerial(w, steps[..n], mid);
      PollsKeep(w.st, mid.served);
      StepSerial(w.st, mid, steps[n]);
    }
  }

  lemma StartSerial(w: World)
    requires Start(w)
    ensures Serial(w.st, w)
  {
  }

  function PollOps(polls: seq<Attempt>): seq<Op> {
    seq(|polls|, i requires 0 <= i < |polls| => Polling(polls[i].feed, polls[i].faults))
  }

  lemma {:induction false} PollsAreRun(st: State, polls: seq<Attempt>)
    ensures AfterPolls(st, polls) == Run(st, PollOps(polls)) && PollsJournal(st, polls) == Journal(st, PollOps(polls))
    decreases |polls|
  {
    hide Poll; hide Journal; hide Run; hide Serve; hide Replay;
    if polls == [] {
      EmptyRun(st);
    } else {
      var n := |polls| - 1;
      PollsAreRun(st, polls[..n]);
      assert PollOps(polls) == PollOps(polls[..n]) + [Polling(polls[n].feed, polls[n].faults)];
      Onward(st, PollOps(polls[..n]), Polling(polls[n].feed, polls[n].faults));
      ServesPoll(AfterPolls(st, polls[..n]), polls[n]);
    }
  }

  lemma ServesPoll(st: State, poll: Attempt)
    ensures Serve(st, Polling(poll.feed, poll.faults)) == Poll(st, poll.feed, poll.faults)
  {
  }

  /**
   * Whenever no poll is running, the state and every write made so far are
   * those of the polls served, run one after the other. So the writes of the
   * interleaving itself credit each charge at most once.
   */
  lemma InterleavingsAreSerial(w: World, steps: seq<Step>, last: World, k: nat)
    requires Start(w) && Ran(w, steps, last) && last.owner.None?
    ensures last.st == Run(w.st, PollOps(last.served)) && last.journal == Journal(w.st, PollOps(last.served))
    ensures StrictlyLater(Credits(last.journal, k), Cursor(w.st, k))
  {
    hide Journal; hide Credits; hide StrictlyLater; hide Consistent;
    RunSerial(w, steps, last);
    PollsAreRun(w.st, last.served);
    CreditedAtMostOnce(w.st, PollOps(last.served), k);
  }

  // ---------- the cursor ----------

  predicate NoEarlier(a: Option<Time>, b: Option<Time>) {
    a.Some? ==> b.Some? && a.value <= b.value
  }

  /** In any interleaving no step moves a payment cursor back, and a credit moves it forward. */
  lemma CursorNeverGoesBack(w: World, steps: seq<Step>, mid: World, s: Step, k: nat)
    requires Start(w) && Ran(w, steps, mid) && Ready(mid, s)
    ensures NoEarlier(Cursor(mid.st, k), Cursor(Take(mid, s).st, k))
    ensures k < |mid.st.rows| && k < |Take(mid, s).st.rows| && Take(mid, s).st.rows[k] != mid.st.rows[k] ==>
            LaterInTime(Cursor(mid.st, k), Cursor(Take(mid, s).st, k).GetOr(0))
  {
    hide PollPrefix; hide CreditCharge; hide CreditCopy; hide AfterPolls; hide Consistent; hide Ran;
    RunSerial(w, steps, mid);
    PollsKeep(w.st, mid.served);
    if s.Write? {
      WriteStepMovesOn(AfterPolls(w.st, mid.served), mid, s.t, k);
    }
  }

  lemma WriteStepMovesOn(base: State, w: World, t: nat, k: nat)
    requires !base.freeMode && ThreadOf(w, t).Looked? && InPoll(base, w.st, ThreadOf(w, t))
    ensures var after := Take(w, Write(t)).st;
            && NoEarlier(Cursor(w.st, k), Cursor(after, k))
            && (k < |w.st.rows| == |after.rows| && after.rows[k] != w.st.rows[k] ==>
                  LaterInTime(Cursor(w.st, k), Cursor(after, k).GetOr(0)))
            && |after.rows| == |w.st.rows|
  {
    hide PollPrefix; hide CreditCharge; hide CreditCopy;
    var thread := ThreadOf(w, t);
    var charges := thread.poll.feed.value;
    PollQuiet(base, charges, thread.i, thread.poll.faults);
    ModeKept(base, PollPrefix(base, charges, thread.i, thread.poll.faults).effects);
    LookThenWrite(w.st, charges[thread.i], thread.i, thread.poll.faults);
    WriteMovesOn(w.st, charges[thread.i], thread.i, thread.poll.faults, k);
  }

  lemma WriteMovesOn(st: State, c: Charge, i: nat, faults: Faults, k: nat)
    requires !st.freeMode
    ensures var after := Replay(st, CreditCharge(st, c, i, faults).effects);
            && NoEarlier(Cursor(st, k), Cursor(after, k))
            && (k < |st.rows| == |after.rows| && after.rows[k] != st.rows[k] ==>
                  LaterInTime(Cursor(st, k), Cursor(after, k).GetOr(0)))
            && |after.rows| == |st.rows|
  {
    hide CreditCharge; hide AddMonths; hide Find;
    CreditRows(st, c, i, faults);
  }

  /**
   * Without the mutex this fails: a caller that copied a row for c1, and saves
   * the copy after another caller credited c1 and c2, puts the cursor back to c1.
   */
  lemma UnlockedCursorGoesBack(st: State, k: nat, c1: Charge, c2: Charge)
    requires Consistent(st) && !st.freeMode
    requires k < |st.rows| && st.rows[k].KeyBound() && st.rows[k].status != PendingPayment
    requires c1.tag == c2.tag == st.rows[k].session && c1.at < c2.at && c2.chargeId != ""
    requires !Settled(st.rows[k], c1)
    ensures var other := Replay(st, Poll(st, Some([c1, c2]), {}).effects);
            var stale := Replay(other, CreditCopy(other, k, st.rows[k], c1, 0, {}).effects);
            Cursor(other, k) == Some(c2.at) && Cursor(stale, k) == Some(c1.at)
  {
    hide AddMonths; hide Consistent;
    var m := st.rows[k];
    ConsistentUnique(st);
    FindUnique(st.rows, BySession(m.session), k);
    RenewCopy(st, k, m, c1);
    var one := Replay(st, CreditCharge(st, c1, 0, {}).effects);
    FindUnique(one.rows, BySession(m.session), k);
    RenewCopy(one, k, one.rows[k], c2);
    var other := Replay(st, Poll(st, Some([c1, c2]), {}).effects);
    TwoCharges(st, c1, c2);
    RenewCopy(other, k, m, c1);
  }

  lemma RenewCopy(st: State, k: nat, m: Mailbox, c: Charge)
    requires UniqueRows(st.rows) && k < |st.rows| && m.KeyBound()
    requires SameOwner(st.rows[k], m) && m.fingerprint == st.rows[k].fingerprint && m.session == st.rows[k].session
    requires m.status != PendingPayment && !Settled(m, c) && !st.freeMode
    ensures forall i: nat :: CreditCopy(st, k, m, c, i, {}).ok
    ensures forall i: nat :: Replay(st, CreditCopy(st, k, m, c, i, {}).effects).rows == st.rows[k := CreditRow(m, c)]
    ensures forall i: nat :: !Replay(st, CreditCopy(st, k, m, c, i, {}).effects).freeMode
    ensures UniqueRows(st.rows[k := CreditRow(m, c)])
  {
    hide AddMonths; hide UniqueRows;
    var row := CreditRow(m, c);
    UniqueWith(st.rows, k, row);
    var why := Renewed(c, Later(c.at, m.expiresAt));
    forall i: nat
      ensures CreditCopy(st, k, m, c, i, {}) == Trace([Save(k, row, why), Enable(m.login)], true, 1)
    {
      assert [] + [Save(k, row, why), Enable(m.login)] == [Save(k, row, why), Enable(m.login)];
    }
    ReplayTwo(st, Save(k, row, why), Enable(m.login));
  }

  lemma TwoCharges(st: State, c1: Charge, c2: Charge)
    requires !st.freeMode && CreditCharge(st, c1, 0, {}).ok
    ensures var one := Replay(st, CreditCharge(st, c1, 0, {}).effects);
            Replay(st, Poll(st, Some([c1, c2]), {}).effects) == Replay(one, CreditCharge(one, c2, 1, {}).effects)
  {
    hide CreditCharge;
    var first := CreditCharge(st, c1, 0, {});
    assert PollPrefix(st, [c1, c2], 0, {}) == Trace([], true, 0);
    assert [] + first.effects == first.effects;
    assert PollPrefix(st, [c1, c2], 1, {}) == Trace(first.effects, true, first.count);
    var one := Replay(st, first.effects);
    ReplayConcat(st, first.effects, CreditCharge(one, c2, 1, {}).effects);
  }
}
