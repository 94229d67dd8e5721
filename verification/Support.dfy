/** Support messages: the store and its limit of three messages an hour for each key. */
module Support {
  import opened Calendar
  import opened Domain

  const LIMIT: nat := 3
  const WINDOW: int := HOUR

  datatype Message = Message(fingerprint: string, createdAt: Time)

  /**
   * One call. `mailboxes` is the mailbox table it looks its key up in. The
   * clock is read before the count and again for the insert; `finds`,
   * `counts`, `stores` and `mails` say which ports do not fail.
   */
  datatype Call = Call(
    fingerprint: string, mailboxes: seq<Mailbox>, finds: bool,
    counted: Time, counts: bool, written: Time, stores: bool, mails: bool)
  {
    predicate Known() {
      finds && Find(mailboxes, ByFingerprint(fingerprint)).Some?
    }
  }

  /** Unsent is a message that was stored but could not be mailed. */
  datatype Verdict = Unconfigured | NoMailbox | PortFailed | RateLimited | Unsent | Sent
  {
    predicate Stored() {
      Unsent? || Sent?
    }
  }

  /** Messages of a key from one instant to another, both included. */
  function Within(messages: seq<Message>, fingerprint: string, first: Time, last: Time): (n: nat)
    decreases |messages|
  {
    if messages == [] then 0
    else
      var m := messages[|messages| - 1];
      Within(messages[..|messages| - 1], fingerprint, first, last) +
      if m.fingerprint == fingerprint && first <= m.createdAt <= last then 1 else 0
  }

  /** CountRecentByFingerprint */
  function Recent(messages: seq<Message>, fingerprint: string, since: Time): (n: nat)
    decreases |messages|
  {
    if messages == [] then 0
    else
      var m := messages[|messages| - 1];
      Recent(messages[..|messages| - 1], fingerprint, since) +
      if m.fingerprint == fingerprint && since <= m.createdAt then 1 else 0
  }

  function Answer(messages: seq<Message>, configured: bool, c: Call): Verdict {
    if !configured then Unconfigured
    else if !c.Known() then NoMailbox
    else if !c.counts then PortFailed
    else if Recent(messages, c.fingerprint, c.counted - WINDOW) >= LIMIT then RateLimited
    else if !c.stores then PortFailed
    else if !c.mails then Unsent
    else Sent
  }

  function Table(messages: seq<Message>, configured: bool, c: Call): seq<Message> {
    if Answer(messages, configured, c).Stored() then messages + [Message(c.fingerprint, c.written)] else messages
  }

  lemma {:induction false} RecentCounts(messages: seq<Message>, fingerprint: string, since: Time)
    ensures Recent(messages, fingerprint, since) == |RecentOnes(messages, fingerprint, since)|
    decreases |messages|
  {
    hide RecentOnes;
    if messages == [] {
      NoneRecent(fingerprint, since);
    } else {
      var n := |messages| - 1;
      RecentCounts(messages[..n], fingerprint, since);
      RecentStep(messages, fingerprint, since);
    }
  }

  function RecentOnes(messages: seq<Message>, fingerprint: string, since: Time): set<nat> {
    set i: nat | i < |messages| && messages[i].fingerprint == fingerprint && since <= messages[i].createdAt
  }

  lemma NoneRecent(fingerprint: string, since: Time)
    ensures RecentOnes([], fingerprint, since) == {}
  {
  }

  lemma RecentStep(messages: seq<Message>, fingerprint: string, since: Time)
    requires messages != []
    ensures var n := |messages| - 1;
            var before := RecentOnes(messages[..n], fingerprint, since);
            && n !in before
            && RecentOnes(messages, fingerprint, since) ==
                 before + (if messages[n].fingerprint == fingerprint && since <= messages[n].createdAt then {n} else {})
  {
  }

  /**
   * A message is stored, as it was written, exactly when support is set up, the
   * key has a mailbox, fewer than three of its messages are of the hour before
   * the count, and the ports that come before the mail do not fail. It counts
   * as sent when the mail does not fail either.
   */
  lemma StoredExactlyWhen(messages: seq<Message>, configured: bool, c: Call)
    ensures var recent := set i: nat | i < |messages| && messages[i].fingerprint == c.fingerprint &&
                                       c.counted - HOUR <= messages[i].createdAt;
            var stored := configured && c.finds && c.counts && c.stores && |recent| < 3 &&
                          exists k :: 0 <= k < |c.mailboxes| && c.mailboxes[k].fingerprint == c.fingerprint;
            && Table(messages, configured, c)
                 == (if stored then messages + [Message(c.fingerprint, c.written)] else messages)
            && (Answer(messages, configured, c) == Sent <==> stored && c.mails)
            && (Answer(messages, configured, c) == Unsent <==> stored && !c.mails)
  {
    hide Find; hide Recent;
    RecentCounts(messages, c.fingerprint, c.counted - HOUR);
    assert RecentOnes(messages, c.fingerprint, c.counted - HOUR)
        == set i: nat | i < |messages| && messages[i].fingerprint == c.fingerprint &&
                        c.counted - HOUR <= messages[i].createdAt;
    var found := Find(c.mailboxes, ByFingerprint(c.fingerprint));
    if found.Some? {
      assert c.mailboxes[found.value].fingerprint == c.fingerprint;
    } else {
      assert forall k :: 0 <= k < |c.mailboxes| ==> !Matches(c.mailboxes[k], ByFingerprint(c.fingerprint));
    }
  }

  function Run(calls: seq<Call>): seq<Message>
    decreases |calls|
  {
    if calls == [] then []
    else Table(Run(calls[..|calls| - 1]), true, calls[|calls| - 1])
  }

  lemma {:induction false} WithinRecent(messages: seq<Message>, fingerprint: string, first: Time, last: Time,
                                        since: Time)
    requires since <= first
    ensures Within(messages, fingerprint, first, last) <= Recent(messages, fingerprint, since)
    decreases |messages|
  {
    if messages != [] {
      WithinRecent(messages[..|messages| - 1], fingerprint, first, last, since);
    }
  }

  lemma OneMore(messages: seq<Message>, c: Call, fingerprint: string, first: Time)
    requires c.counted <= c.written && Within(messages, fingerprint, first, first + WINDOW) <= LIMIT
    ensures Within(Table(messages, true, c), fingerprint, first, first + WINDOW) <= LIMIT
  {
    if Answer(messages, true, c).Stored() {
      var last := Message(c.fingerprint, c.written);
      assert (messages + [last])[..|messages|] == messages;
      if c.fingerprint == fingerprint && first <= c.written <= first + WINDOW {
        WithinRecent(messages, fingerprint, first, first + WINDOW, c.counted - WINDOW);
      }
    }
  }

  /**
   * Every closed one-hour window of any run holds at most three stored
   * messages of a key. Only the two clock readings of one call need be in
   * order; between calls the clock may do as it likes.
   */
  lemma {:induction false} WindowHoldsThree(calls: seq<Call>, fingerprint: string, first: Time)
    requires forall i :: 0 <= i < |calls| ==> calls[i].counted <= calls[i].written
    ensures Within(Run(calls), fingerprint, first, first + WINDOW) <= LIMIT
    decreases |calls|
  {
    if calls != [] {
      WindowHoldsThree(calls[..|calls| - 1], fingerprint, first);
      OneMore(Run(calls[..|calls| - 1]), calls[|calls| - 1], fingerprint, first);
    }
  }

  /** The clock never goes back, inside a call or from one call to the next. */
  ghost predicate Forward(calls: seq<Call>) {
    && (forall i :: 0 <= i < |calls| ==> calls[i].counted <= calls[i].written)
    && (forall i, j :: 0 <= i < j < |calls| ==> calls[i].written <= calls[j].counted)
  }

  lemma {:induction false} StoredInThePast(calls: seq<Call>, now: Time)
    requires Forward(calls) && forall i :: 0 <= i < |calls| ==> calls[i].written <= now
    ensures forall i :: 0 <= i < |Run(calls)| ==> Run(calls)[i].createdAt <= now
    decreases |calls|
  {
    if calls != [] {
      StoredInThePast(calls[..|calls| - 1], now);
    }
  }

  lemma {:induction false} AllUpToNow(messages: seq<Message>, fingerprint: string, first: Time, now: Time)
    requires forall i :: 0 <= i < |messages| ==> messages[i].createdAt <= now
    ensures Within(messages, fingerprint, first, now) == Recent(messages, fingerprint, first)
    decreases |messages|
  {
    if messages != [] {
      AllUpToNow(messages[..|messages| - 1], fingerprint, first, now);
    }
  }

  /**
   * With a clock that never goes back, a call is turned away exactly when the
   * hour before it already holds three messages.
   */
  lemma {:induction false} LimitedExactlyWhenFull(calls: seq<Call>, c: Call)
    requires Forward(calls + [c]) && c.Known() && c.counts
    ensures Answer(Run(calls), true, c) == RateLimited <==>
              Within(Run(calls), c.fingerprint, c.counted - WINDOW, c.counted) == LIMIT
  {
    assert forall i :: 0 <= i < |calls| ==> (calls + [c])[i] == calls[i];
    assert (calls + [c])[|calls|] == c;
    StoredInThePast(calls, c.counted);
    AllUpToNow(Run(calls), c.fingerprint, c.counted - WINDOW, c.counted);
    WindowHoldsThree(calls, c.fingerprint, c.counted - WINDOW);
  }

  // ---------- overlapping calls ----------

  /** A call that has counted and has not yet inserted. */
  datatype Sender = Sender(fingerprint: string, counted: Time)

  datatype World = World(messages: seq<Message>, between: seq<Sender>)

  /** Any call may count next, and any sender insert; its second clock reading is not before its first. */
  datatype Step = Count(c: Call) | Insert(i: nat, written: Time, stores: bool)

  const START := World([], [])

  /** The count lets the call through. */
  predicate Passes(messages: seq<Message>, c: Call) {
    c.Known() && c.counts && Recent(messages, c.fingerprint, c.counted - WINDOW) < LIMIT
  }

  function Take(w: World, s: Step): World {
    match s
    case Count(c) => if Passes(w.messages, c) then w.(between := w.between + [Sender(c.fingerprint, c.counted)]) else w
    case Insert(i, written, stores) =>
      if i >= |w.between| || written < w.between[i].counted then w
      else
        var rest := w.between[..i] + w.between[i + 1..];
        World(if stores then w.messages + [Message(w.between[i].fingerprint, written)] else w.messages, rest)
  }

  function Play(w: World, steps: seq<Step>): World
    decreases |steps|
  {
    if steps == [] then w else Take(Play(w, steps[..|steps| - 1]), steps[|steps| - 1])
  }

  /** A call on its own is its two steps. */
  lemma CallIsTwoSteps(messages: seq<Message>, c: Call)
    requires c.counted <= c.written
    ensures Table(messages, true, c)
        == Take(Take(World(messages, []), Count(c)), Insert(0, c.written, c.stores)).messages
  {
  }

  /** Calls of a key between count and insert. */
  function InFlight(between: seq<Sender>, fingerprint: string): nat
    decreases |between|
  {
    if between == [] then 0
    else
      InFlight(between[..|between| - 1], fingerprint) +
      if between[|between| - 1].fingerprint == fingerprint then 1 else 0
  }

  /** Those of them that counted by `last`, and so may still insert by then. */
  function MayInsert(between: seq<Sender>, fingerprint: string, last: Time): nat
    decreases |between|
  {
    if between == [] then 0
    else
      var s := between[|between| - 1];
      MayInsert(between[..|between| - 1], fingerprint, last) +
      if s.fingerprint == fingerprint && s.counted <= last then 1 else 0
  }

  /** At no time are more than n calls of the key between count and insert. */
  ghost predicate AtMost(n: nat, w: World, steps: seq<Step>, fingerprint: string)
    decreases |steps|
  {
    && InFlight(Play(w, steps).between, fingerprint) <= n
    && (steps == [] || AtMost(n, w, steps[..|steps| - 1], fingerprint))
  }

  lemma {:induction false} MayInsertSome(between: seq<Sender>, fingerprint: string, last: Time)
    ensures MayInsert(between, fingerprint, last) <= InFlight(between, fingerprint)
    decreases |between|
  {
    if between != [] {
      MayInsertSome(between[..|between| - 1], fingerprint, last);
    }
  }

  lemma {:induction false} OneLess(between: seq<Sender>, i: nat, fingerprint: string, last: Time)
    requires i < |between|
    ensures MayInsert(between, fingerprint, last) == MayInsert(between[..i] + between[i + 1..], fingerprint, last) +
              if between[i].fingerprint == fingerprint && between[i].counted <= last then 1 else 0
    decreases |between|
  {
    var n := |between| - 1;
    if i == n {
      assert between[..i] + between[i + 1..] == between[..n];
    } else {
      OneLess(between[..n], i, fingerprint, last);
      FrontWithout(between, i);
    }
  }

  lemma FrontWithout(between: seq<Sender>, i: nat)
    requires i < |between| - 1
    ensures var n, rest := |between| - 1, between[..i] + between[i + 1..];
            && rest[..|rest| - 1] == between[..n][..i] + between[..n][i + 1..]
            && rest[|rest| - 1] == between[n] && between[..n][i] == between[i]
  {
    var n := |between| - 1;
    assert between[i + 1..] == between[i + 1..n] + [between[n]];
    assert between[..n][i + 1..] == between[i + 1..n];
  }

  /** What is in the window and what may still come into it. */
  function Load(w: World, fingerprint: string, first: Time): nat {
    Within(w.messages, fingerprint, first, first + WINDOW) + MayInsert(w.between, fingerprint, first + WINDOW)
  }

  lemma CountLoads(w: World, c: Call, fingerprint: string, first: Time, n: nat)
    requires n >= 1 && Load(w, fingerprint, first) <= LIMIT + n - 1
    requires InFlight(Take(w, Count(c)).between, fingerprint) <= n
    ensures Load(Take(w, Count(c)), fingerprint, first) <= LIMIT + n - 1
  {
    var after := Take(w, Count(c));
    if Passes(w.messages, c) && c.fingerprint == fingerprint && c.counted <= first + WINDOW {
      WithinRecent(w.messages, fingerprint, first, first + WINDOW, c.counted - WINDOW);
      MayInsertSome(after.between, fingerprint, first + WINDOW);
    } else if after != w {
      assert after.between[..|w.between|] == w.between;
    }
  }

  lemma InsertLoads(w: World, i: nat, written: Time, stores: bool, fingerprint: string, first: Time)
    ensures Load(Take(w, Insert(i, written, stores)), fingerprint, first) <= Load(w, fingerprint, first)
  {
    if i < |w.between| && written >= w.between[i].counted {
      OneLess(w.between, i, fingerprint, first + WINDOW);
      var m := Message(w.between[i].fingerprint, written);
      assert (w.messages + [m])[..|w.messages|] == w.messages;
    }
  }

  /**
   * With at most n calls of a key between count and insert, in any
   * interleaving, a closed one-hour window holds at most LIMIT + n - 1 of its
   * messages: exactly one call too many for each that overlaps.
   */
  lemma {:induction false} OverlapBound(steps: seq<Step>, fingerprint: string, n: nat, first: Time)
    requires n >= 1 && AtMost(n, START, steps, fingerprint)
    ensures Load(Play(START, steps), fingerprint, first) <= LIMIT + n - 1
    ensures Within(Play(START, steps).messages, fingerprint, first, first + WINDOW) <= LIMIT + n - 1
    decreases |steps|
  {
    hide Within; hide MayInsert; hide InFlight; hide Take; hide Load;
    if steps == [] {
      EmptyLoad(fingerprint, first);
    } else {
      var before := Play(START, steps[..|steps| - 1]);
      OverlapBound(steps[..|steps| - 1], fingerprint, n, first);
      match steps[|steps| - 1]
      case Count(c) => CountLoads(before, c, fingerprint, first, n);
      case Insert(i, written, stores) => InsertLoads(before, i, written, stores, fingerprint, first);
    }
    LoadHoldsWindow(Play(START, steps), fingerprint, first);
  }

  lemma LoadHoldsWindow(w: World, fingerprint: string, first: Time)
    ensures Within(w.messages, fingerprint, first, first + WINDOW) <= Load(w, fingerprint, first)
  {
  }

  lemma EmptyLoad(fingerprint: string, first: Time)
    ensures Load(START, fingerprint, first) == 0
  {
  }

  // ---------- the bound is reached ----------

  /** k messages and j senders of one key, all of one instant. */
  function Crowd(c: Call, k: nat, j: nat): World {
    World(seq(k, _ => Message(c.fingerprint, c.counted)), seq(j, _ => Sender(c.fingerprint, c.counted)))
  }

  lemma {:induction false} CrowdCounts(c: Call, k: nat, j: nat)
    ensures Recent(Crowd(c, k, j).messages, c.fingerprint, c.counted - WINDOW) == k
    ensures Within(Crowd(c, k, j).messages, c.fingerprint, c.counted, c.counted + WINDOW) == k
    decreases k
  {
    if k > 0 {
      CrowdCounts(c, k - 1, j);
      assert Crowd(c, k, j).messages[..k - 1] == Crowd(c, k - 1, j).messages;
    }
  }

  lemma {:induction false} CrowdInFlight(c: Call, k: nat, j: nat)
    ensures InFlight(Crowd(c, k, j).between, c.fingerprint) == j
    decreases j
  {
    if j > 0 {
      CrowdInFlight(c, k, j - 1);
      assert Crowd(c, k, j).between[..j - 1] == Crowd(c, k, j - 1).between;
    }
  }

  lemma CrowdSteps(c: Call, k: nat, j: nat)
    requires c.Known() && c.counts
    ensures k < LIMIT ==> Take(Crowd(c, k, j), Count(c)) == Crowd(c, k, j + 1)
    ensures j > 0 ==> Take(Crowd(c, k, j), Insert(0, c.counted, true)) == Crowd(c, k + 1, j - 1)
  {
    hide Recent;
    CrowdCounts(c, k, j);
    var w := Crowd(c, k, j);
    assert w.between + [Sender(c.fingerprint, c.counted)] == Crowd(c, k, j + 1).between;
    if j > 0 {
      assert w.between[..0] + w.between[1..] == Crowd(c, k + 1, j - 1).between;
      assert w.messages + [Message(c.fingerprint, c.counted)] == Crowd(c, k + 1, j - 1).messages;
    }
  }

  /** One more step of a run that stays within n. */
  lemma Further(n: nat, steps: seq<Step>, s: Step, fingerprint: string)
    requires AtMost(n, START, steps, fingerprint) && InFlight(Take(Play(START, steps), s).between, fingerprint) <= n
    ensures AtMost(n, START, steps + [s], fingerprint) && Play(START, steps + [s]) == Take(Play(START, steps), s)
  {
    hide InFlight; hide Take;
    assert (steps + [s])[..|steps|] == steps;
  }

  lemma {:induction false} ReachCounted(c: Call, n: nat, k: nat, j: nat) returns (steps: seq<Step>)
    requires c.Known() && c.counts && n >= 1 && k < LIMIT && j <= n
    ensures AtMost(n, START, steps, c.fingerprint) && Play(START, steps) == Crowd(c, k, j)
    decreases k, j
  {
    hide AtMost; hide Take; hide InFlight; hide Play; hide Crowd;
    CrowdInFlight(c, k, j);
    if j > 0 {
      steps := ReachCounted(c, n, k, j - 1);
      CrowdSteps(c, k, j - 1);
      Further(n, steps, Count(c), c.fingerprint);
      steps := steps + [Count(c)];
    } else if k > 0 {
      steps := ReachCounted(c, n, k - 1, 1);
      CrowdSteps(c, k - 1, 1);
      Further(n, steps, Insert(0, c.counted, true), c.fingerprint);
      steps := steps + [Insert(0, c.counted, true)];
    } else {
      steps := [];
      EmptyCrowd(c, n);
    }
  }

  lemma EmptyCrowd(c: Call, n: nat)
    ensures Play(START, []) == Crowd(c, 0, 0) && AtMost(n, START, [], c.fingerprint)
  {
  }

  /** From LIMIT - 1 stored messages and n senders that all passed, everyone inserts. */
  lemma {:induction false} ReachInserted(c: Call, n: nat, i: nat) returns (steps: seq<Step>)
    requires c.Known() && c.counts && n >= 1 && i <= n
    ensures AtMost(n, START, steps, c.fingerprint) && Play(START, steps) == Crowd(c, LIMIT - 1 + i, n - i)
  {
    hide AtMost; hide Take; hide InFlight; hide Play; hide Crowd;
    if i == 0 {
      steps := ReachCounted(c, n, LIMIT - 1, n);
    } else {
      steps := ReachInserted(c, n, i - 1);
      CrowdInFlight(c, LIMIT - 1 + i, n - i);
      CrowdSteps(c, LIMIT - 1 + i - 1, n - i + 1);
      Further(n, steps, Insert(0, c.counted, true), c.fingerprint);
      steps := steps + [Insert(0, c.counted, true)];
    }
  }

  /** The bound is reached for every n: with two overlapping calls four messages fall into one hour. */
  lemma OverlapReached(c: Call, n: nat) returns (steps: seq<Step>)
    requires c.Known() && c.counts && n >= 1
    ensures AtMost(n, START, steps, c.fingerprint)
    ensures Within(Play(START, steps).messages, c.fingerprint, c.counted, c.counted + WINDOW) == LIMIT + n - 1
  {
    steps := ReachInserted(c, n, n);
    CrowdCounts(c, LIMIT - 1 + n, 0);
  }

  /** The support side of the service, over its table of messages. */
  class SupportDesk {
    var configured: bool
    var messages: seq<Message>

    constructor (configured: bool)
      ensures this.configured == configured && messages == []
    {
      this.configured, messages := configured, [];
    }

    method CountRecentByFingerprint(fingerprint: string, since: Time) returns (count: nat)
      ensures count == Recent(messages, fingerprint, since)
    {
      count := 0;
      for i := 0 to |messages|
        invariant count == Recent(messages[..i], fingerprint, since)
      {
        assert messages[..i + 1][..i] == messages[..i];
        if messages[i].fingerprint == fingerprint && since <= messages[i].createdAt {
          count := count + 1;
        }
      }
      assert messages[..|messages|] == messages;
    }

    method SendSupportMessage(c: Call) returns (verdict: Verdict)
      modifies this`messages
      ensures verdict == Answer(old(messages), configured, c)
      ensures messages == Table(old(messages), configured, c)
    {
      if !configured {
        return Unconfigured;
      }
      if !c.finds {
        return NoMailbox;
      }
      var mailbox := Find(c.mailboxes, ByFingerprint(c.fingerprint));
      if mailbox.None? {
        return NoMailbox;
      }
      var count := CountRecentByFingerprint(c.fingerprint, c.counted - WINDOW);
      if !c.counts {
        return PortFailed;
      }
      if count >= LIMIT {
        return RateLimited;
      }
      if !c.stores {
        return PortFailed;
      }
      messages := messages + [Message(c.fingerprint, c.written)];
      return if c.mails then Sent else Unsent;
    }
  }
}
