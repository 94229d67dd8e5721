/**
 * Exchanges of refresh tokens and recovery codes that overlap: a call reads its
 * token as active, and marks it used in a later step that does not ask whether
 * it still is unused.
 */
module OverlappingExchanges {
  import opened Calendar
  import opened Domain
  import opened Accounts

  predicate Exchanging(op: Op) {
    op.RefreshAccess? || op.CompleteRecovery?
  }

  /** The token or code a call exchanges. */
  function TokenOf(op: Op): Spent {
    SpentBy(Issued(op, ""))
  }

  /** A call that has read its token, with the account it read. */
  datatype Hold = Hold(op: Op, account: string)

  datatype World = World(store: Store, holding: seq<Hold>, events: seq<Event>)

  /** An exchange reads, some exchange goes on to its end, or another call runs. */
  datatype Step = Read(op: Op) | Finish(i: nat) | Other(op: Op)

  function HoldOf(s: Store, op: Op): Hold
    requires Exchanging(op) && Redeemable(s, op)
  {
    Hold(op, if op.RefreshAccess? then s.refresh[op.used].account else s.recoveries[op.code].account)
  }

  /** MarkUsed, which updates the row if it is still there. */
  function MarkUsed(s: Store, x: Spent): Store {
    match x
    case RefreshToken(t) => if t in s.refresh then MarkRefreshUsed(s, t) else s
    case RecoveryCode(c) => if c in s.recoveries then MarkRecoveryUsed(s, c) else s
    case Nothing => s
  }

  /** The part of an exchange that follows the read. */
  ghost function FinishExchange(s: Store, h: Hold): Outcome
    requires Exchanging(h.op)
  {
    if h.op.ports < 1 then Outcome(s, None) else Exchange(MarkUsed(s, TokenOf(h.op)), h.op, h.account, h.op.ports - 1)
  }

  /** An exchange on its own is its two steps. */
  lemma ExchangeIsTwoSteps(s: Store, op: Op)
    requires Exchanging(op)
    ensures Exec(s, op) == if Redeemable(s, op) then FinishExchange(s, HoldOf(s, op)) else Outcome(s, None)
  {
    hide Exchange; hide MarkRefreshUsed; hide MarkRecoveryUsed;
  }

  function Logged(events: seq<Event>, issued: Option<Event>): seq<Event> {
    if issued.Some? then events + [issued.value] else events
  }

  predicate Ready(w: World, s: Step) {
    match s
    case Read(op) => Exchanging(op) && Redeemable(w.store, op)
    case Finish(i) => i < |w.holding| && Exchanging(w.holding[i].op)
    case Other(op) => !Exchanging(op)
  }

  ghost function Take(w: World, s: Step): World {
    if !Ready(w, s) then w
    else
      match s
      case Read(op) => w.(holding := w.holding + [HoldOf(w.store, op)])
      case Finish(i) =>
        var o := FinishExchange(w.store, w.holding[i]);
        World(o.store, w.holding[..i] + w.holding[i + 1..], Logged(w.events, o.issued))
      case Other(op) =>
        var o := Exec(w.store, op);
        World(o.store, w.holding, Logged(w.events, o.issued))
  }

  ghost function Play(w: World, steps: seq<Step>): World
    decreases |steps|
  {
    if steps == [] then w else Take(Play(w, steps[..|steps| - 1]), steps[|steps| - 1])
  }

  lemma Onward(w: World, steps: seq<Step>, s: Step)
    ensures Play(w, steps + [s]) == Take(Play(w, steps), s)
    ensures Play(w, []) == w
  {
    hide Take;
    assert (steps + [s])[..|steps|] == steps;
  }

  /** How often a token or code was exchanged. */
  function Exchanges(events: seq<Event>, x: Spent): nat
    decreases |events|
  {
    if events == [] then 0
    else Exchanges(events[..|events| - 1], x) + if SpentBy(events[|events| - 1]) == x then 1 else 0
  }

  /** How many calls hold it. */
  function Holders(holding: seq<Hold>, x: Spent): nat
    decreases |holding|
  {
    if holding == [] then 0
    else Holders(holding[..|holding| - 1], x) + if TokenOf(holding[|holding| - 1].op) == x then 1 else 0
  }

  ghost predicate AtMost(n: nat, w: World, steps: seq<Step>, x: Spent)
    decreases |steps|
  {
    && Holders(Play(w, steps).holding, x) <= n
    && (steps == [] || AtMost(n, w, steps[..|steps| - 1], x))
  }

  /** No later recovery happens to draw the same code. */
  predicate NotDrawn(steps: seq<Step>, x: Spent) {
    forall i :: 0 <= i < |steps| ==> !Draws(steps[i], x)
  }

  predicate Draws(s: Step, x: Spent) {
    s.Other? && s.op.StartRecovery? && x == RecoveryCode(s.op.code)
  }

  lemma {:induction false} OneLess(holding: seq<Hold>, i: nat, x: Spent)
    requires i < |holding|
    ensures Holders(holding, x) ==
              Holders(holding[..i] + holding[i + 1..], x) + if TokenOf(holding[i].op) == x then 1 else 0
    decreases |holding|
  {
    hide TokenOf;
    var n := |holding| - 1;
    if i == n {
      assert holding[..i] + holding[i + 1..] == holding[..n];
    } else {
      OneLess(holding[..n], i, x);
      FrontWithout(holding, i);
    }
  }

  lemma FrontWithout(holding: seq<Hold>, i: nat)
    requires i < |holding| - 1
    ensures var n, rest := |holding| - 1, holding[..i] + holding[i + 1..];
            && rest[..|rest| - 1] == holding[..n][..i] + holding[..n][i + 1..]
            && rest[|rest| - 1] == holding[n] && holding[..n][i] == holding[i]
  {
    var n := |holding| - 1;
    assert holding[i + 1..] == holding[i + 1..n] + [holding[n]];
    assert holding[..n][i + 1..] == holding[i + 1..n];
  }

  // ---------- no more exchanges than holders ----------

  /** No call can read it any more: the token is used, or the code used or dropped. */
  predicate Gone(s: Store, x: Spent) {
    match x
    case RefreshToken(t) => t in s.refresh && s.refresh[t].used
    case RecoveryCode(c) => c in s.recoveries ==> s.recoveries[c].used
    case Nothing => true
  }

  /** A refresh token that a call holds is stored: refresh tokens are never deleted. */
  predicate Known(s: Store, x: Spent) {
    x.RefreshToken? ==> x.token in s.refresh
  }

  lemma ExchangeKeeps(s: Store, op: Op, id: string, ports: nat, x: Spent)
    requires !op.StartRecovery?
    ensures var after := Exchange(s, op, id, ports).store;
            (Gone(s, x) ==> Gone(after, x)) && (Known(s, x) ==> Known(after, x))
    ensures Exchange(s, op, id, ports).issued.Some? ==> Exchange(s, op, id, ports).issued.value == Issued(op, id)
  {
  }

  lemma MarkKeeps(s: Store, y: Spent, x: Spent)
    ensures Gone(s, x) ==> Gone(MarkUsed(s, y), x)
    ensures Known(s, x) ==> Known(MarkUsed(s, y), x)
    ensures Known(s, y) ==> Gone(MarkUsed(s, y), y)
  {
  }

  lemma FinishKeeps(s: Store, h: Hold, x: Spent)
    requires Exchanging(h.op)
    ensures var o := FinishExchange(s, h);
            && (Gone(s, x) ==> Gone(o.store, x)) && (Known(s, x) ==> Known(o.store, x))
            && (o.issued.Some? ==> SpentBy(o.issued.value) == TokenOf(h.op))
            && (o.issued.Some? && Known(s, TokenOf(h.op)) ==> Gone(o.store, TokenOf(h.op)))
  {
    hide Exchange; hide MarkUsed; hide Gone; hide Known;
    if h.op.ports >= 1 {
      var y := TokenOf(h.op);
      MarkKeeps(s, y, x);
      MarkKeeps(s, y, y);
      ExchangeKeeps(MarkUsed(s, y), h.op, h.account, h.op.ports - 1, x);
      ExchangeKeeps(MarkUsed(s, y), h.op, h.account, h.op.ports - 1, y);
    }
  }

  lemma OtherKeeps(s: Store, op: Op, x: Spent)
    requires !Exchanging(op) && !Draws(Other(op), x)
    ensures var o := Exec(s, op);
            && (Gone(s, x) ==> Gone(o.store, x)) && (Known(s, x) ==> Known(o.store, x))
            && (o.issued.Some? ==> TokenOf(op) == Nothing && o.issued.value.op == op)
  {
  }

  lemma OneMoreExchange(events: seq<Event>, issued: Option<Event>, x: Spent)
    ensures Exchanges(Logged(events, issued), x) ==
              Exchanges(events, x) + if issued.Some? && SpentBy(issued.value) == x then 1 else 0
  {
    if issued.Some? {
      assert (events + [issued.value])[..|events|] == events;
    }
  }

  /** Exchanges that were made and that may still come; what was exchanged is gone. */
  ghost predicate Bounded(w: World, x: Spent, n: nat) {
    && Exchanges(w.events, x) + Holders(w.holding, x) <= n
    && (Exchanges(w.events, x) > 0 ==> Gone(w.store, x))
    && (Holders(w.holding, x) > 0 ==> Known(w.store, x))
  }

  lemma ReadBounded(w: World, op: Op, x: Spent, n: nat)
    requires x != Nothing && Bounded(w, x, n) && Ready(w, Read(op)) && Holders(Take(w, Read(op)).holding, x) <= n
    ensures Bounded(Take(w, Read(op)), x, n)
  {
    assert (w.holding + [HoldOf(w.store, op)])[..|w.holding|] == w.holding;
  }

  lemma FinishBounded(w: World, i: nat, x: Spent, n: nat)
    requires Bounded(w, x, n) && Ready(w, Finish(i))
    ensures Bounded(Take(w, Finish(i)), x, n)
  {
    hide FinishExchange; hide SpentBy; hide TokenOf; hide Gone; hide Known; hide Exchanges; hide Holders;
    OneLess(w.holding, i, x);
    FinishKeeps(w.store, w.holding[i], x);
    OneMoreExchange(w.events, FinishExchange(w.store, w.holding[i]).issued, x);
  }

  lemma OtherBounded(w: World, op: Op, x: Spent, n: nat)
    requires x != Nothing && Bounded(w, x, n) && Ready(w, Other(op)) && !Draws(Other(op), x)
    ensures Bounded(Take(w, Other(op)), x, n)
  {
    hide Exec; hide Gone; hide Known; hide Exchanges; hide Holders;
    OtherKeeps(w.store, op, x);
    OneMoreExchange(w.events, Exec(w.store, op).issued, x);
  }

  /**
   * In any interleaving a refresh token or a recovery code is exchanged at most
   * as often as it was held at one time: at most once if no two calls hold it
   * together.
   */
  lemma {:induction false} ExchangedAtMostHeld(s: Store, steps: seq<Step>, x: Spent, n: nat)
    requires x != Nothing && AtMost(n, World(s, [], []), steps, x) && NotDrawn(steps, x)
    ensures Bounded(Play(World(s, [], []), steps), x, n)
    ensures Exchanges(Play(World(s, [], []), steps).events, x) <= n
    decreases |steps|
  {
    hide Take; hide Bounded; hide Ready; hide Holders; hide Draws;
    var start := World(s, [], []);
    if steps == [] {
      StartBounded(s, x, n);
    } else {
      var before := Play(start, steps[..|steps| - 1]);
      var step := steps[|steps| - 1];
      assert forall i :: 0 <= i < |steps| - 1 ==> steps[..|steps| - 1][i] == steps[i];
      ExchangedAtMostHeld(s, steps[..|steps| - 1], x, n);
      if !Ready(before, step) {
        NotReady(before, step);
      } else {
        match step
        case Read(op) => ReadBounded(before, op, x, n);
        case Finish(i) => FinishBounded(before, i, x, n);
        case Other(op) => OtherBounded(before, op, x, n);
      }
    }
    BoundedExchanges(Play(start, steps), x, n);
  }

  lemma NotReady(w: World, s: Step)
    requires !Ready(w, s)
    ensures Take(w, s) == w
  {
  }

  lemma StartBounded(s: Store, x: Spent, n: nat)
    ensures Bounded(World(s, [], []), x, n)
  {
  }

  lemma BoundedExchanges(w: World, x: Spent, n: nat)
    requires Bounded(w, x, n)
    ensures Exchanges(w.events, x) <= n
  {
  }

  // ---------- the bound is reached ----------

  /** Calls that all redeem x, with new tokens that clash with nothing from call k on. */
  ghost predicate Rivals(s: Store, ops: seq<Op>, x: Spent) {
    && (forall i :: 0 <= i < |ops| ==>
          Exchanging(ops[i]) && TokenOf(ops[i]) == x && Redeemable(s, ops[i]) && ops[i].ports >= 4)
    && (forall i, j :: 0 <= i < j < |ops| ==> ops[i].api != ops[j].api && ops[i].token != ops[j].token)
  }

  ghost predicate FreshFrom(s: Store, ops: seq<Op>, k: nat) {
    forall i :: k <= i < |ops| ==> Exchanging(ops[i]) && Fresh(s, ops[i].api, ops[i].token)
  }

  function OwnerOfToken(s: Store, x: Spent): string {
    match x
    case RefreshToken(t) => if t in s.refresh then s.refresh[t].account else ""
    case RecoveryCode(c) => if c in s.recoveries then s.recoveries[c].account else ""
    case Nothing => ""
  }

  /** The refresh token a call brings along. */
  function NewToken(op: Op): string {
    if Exchanging(op) then op.token else ""
  }

  function TokensOf(ops: seq<Op>): set<string> {
    set i | 0 <= i < |ops| :: NewToken(ops[i])
  }

  function SpentToken(x: Spent): set<string> {
    if x.RefreshToken? then {x.token} else {}
  }

  lemma MarkUsedSound(s: Store, x: Spent, a: string)
    requires Sound(s)
    ensures var marked := MarkUsed(s, x);
            && Sound(marked) && marked.accounts == s.accounts && marked.refresh.Keys == s.refresh.Keys
            && Unused(marked, a) == Unused(s, a) - SpentToken(x)
    ensures forall api, token :: Fresh(s, api, token) ==> Fresh(MarkUsed(s, x), api, token)
  {
    hide Sound;
    match x
    case RefreshToken(t) =>
      if t in s.refresh {
        MarkSound(s, t);
      }
    case RecoveryCode(c) =>
      if c in s.recoveries {
        MarkSound(s, c);
      }
    case Nothing =>
  }

  lemma ExchangeGoesThrough(s: Store, op: Op, id: string)
    requires Exchanging(op) && op.ports >= 4 && id in s.accounts && Fresh(s, op.api, op.token)
    ensures Exchange(s, op, id, op.ports - 1)
        == Outcome(AddRefresh(SetApiToken(s, id, op.api), id, op.token, op.now), Some(Issued(op, id)))
  {
  }

  lemma StillFresh(s: Store, op: Op, id: string, api: string, token: string)
    requires Exchanging(op) && Fresh(s, api, token) && api != op.api && token != op.token
    ensures Fresh(AddRefresh(SetApiToken(s, id, op.api), id, op.token, op.now), api, token)
  {
  }

  lemma AddedUnused(s: Store, op: Op, id: string)
    requires Exchanging(op) && op.token !in s.refresh
    ensures var after := AddRefresh(SetApiToken(s, id, op.api), id, op.token, op.now);
            Unused(after, id) == Unused(s, id) + {op.token} && after.accounts.Keys == s.accounts.Keys
  {
  }

  /** The end of an exchange that goes through, whether its token is still unused or not. */
  lemma FinishSucceeds(s: Store, h: Hold)
    requires Exchanging(h.op) && Sound(s) && h.account in s.accounts && h.op.ports >= 4
    requires Fresh(s, h.op.api, h.op.token)
    ensures var o := FinishExchange(s, h);
            && o.issued == Some(Issued(h.op, h.account)) && Sound(o.store) && h.account in o.store.accounts
            && Unused(o.store, h.account) == Unused(s, h.account) - SpentToken(TokenOf(h.op)) + {h.op.token}
            && (forall api, token :: Fresh(s, api, token) && api != h.op.api && token != h.op.token ==>
                  Fresh(o.store, api, token))
  {
    hide Sound; hide Fresh; hide Exchange; hide MarkUsed; hide Unused; hide TokenOf; hide SetApiToken; hide AddRefresh;
    var marked := MarkUsed(s, TokenOf(h.op));
    MarkUsedSound(s, TokenOf(h.op), h.account);
    IssueSound(marked, h.op, h.account, h.op.ports - 1);
    ExchangeGoesThrough(marked, h.op, h.account);
    FreshToken(marked, h.op.api, h.op.token);
    AddedUnused(marked, h.op, h.account);
    forall api, token | Fresh(s, api, token) && api != h.op.api && token != h.op.token
      ensures Fresh(FinishExchange(s, h).store, api, token)
    {
      StillFresh(marked, h.op, h.account, api, token);
    }
  }

  lemma FreshToken(s: Store, api: string, token: string)
    requires Fresh(s, api, token)
    ensures token !in s.refresh
  {
  }

  function Holds(ops: seq<Op>, account: string): seq<Hold> {
    seq(|ops|, i requires 0 <= i < |ops| => Hold(ops[i], account))
  }

  /** Everyone reads, and then k of the calls run to their ends. */
  function AllRead(ops: seq<Op>, k: nat): seq<Step> {
    seq(|ops|, i requires 0 <= i < |ops| => Read(ops[i])) + seq(k, _ => Finish(0))
  }

  lemma {:induction false} ReadsAll(s: Store, ops: seq<Op>, x: Spent)
    requires Rivals(s, ops, x)
    ensures Play(World(s, [], []), AllRead(ops, 0)) == World(s, Holds(ops, OwnerOfToken(s, x)), [])
    decreases |ops|
  {
    hide Play; hide Redeemable;
    var w := World(s, [], []);
    if ops == [] {
      Onward(w, [], Finish(0));
      assert AllRead(ops, 0) == [] && Holds(ops, OwnerOfToken(s, x)) == [];
    } else {
      var n := |ops| - 1;
      ReadsAll(s, ops[..n], x);
      assert AllRead(ops, 0) == AllRead(ops[..n], 0) + [Read(ops[n])];
      Onward(w, AllRead(ops[..n], 0), Read(ops[n]));
      ReadsOwner(s, ops[n], x);
      assert Holds(ops, OwnerOfToken(s, x)) == Holds(ops[..n], OwnerOfToken(s, x)) + [HoldOf(s, ops[n])];
    }
  }

  lemma ReadsOwner(s: Store, op: Op, x: Spent)
    requires Exchanging(op) && TokenOf(op) == x && Redeemable(s, op)
    ensures HoldOf(s, op) == Hold(op, OwnerOfToken(s, x))
  {
  }

  /** After k calls ran to their ends. */
  ghost predicate Drained(s: Store, ops: seq<Op>, x: Spent, k: nat, w: World)
    requires k <= |ops| && forall i :: 0 <= i < |ops| ==> Exchanging(ops[i])
  {
    var owner := OwnerOfToken(s, x);
    && w.holding == Holds(ops, owner)[k..] && Exchanges(w.events, x) == k
    && Sound(w.store) && owner in w.store.accounts && FreshFrom(w.store, ops, k)
    && Unused(w.store, owner) == Unused(s, owner) - (if k == 0 then {} else SpentToken(x)) + TokensOf(ops[..k])
  }

  lemma OneMoreDrained(s: Store, ops: seq<Op>, x: Spent, k: nat, w: World)
    requires Rivals(s, ops, x) && Sound(s) && FreshFrom(s, ops, 0) && k < |ops| && Drained(s, ops, x, k, w)
    ensures Drained(s, ops, x, k + 1, Take(w, Finish(0)))
  {
    hide Sound; hide Fresh; hide FinishExchange; hide Exchanges; hide Unused; hide Redeemable; hide TokenOf;
    hide SpentBy;
    var owner := OwnerOfToken(s, x);
    var h := Hold(ops[k], owner);
    assert w.holding[0] == h && w.holding[..0] + w.holding[1..] == Holds(ops, owner)[k + 1..];
    FinishSucceeds(w.store, h);
    var o := FinishExchange(w.store, h);
    OneMoreExchange(w.events, o.issued, x);
    IssuedSpends(h.op, owner);
    OthersFresh(s, ops, x, k, w.store, o.store);
    TokensAdd(ops, k);
    hide TokensOf; hide FreshFrom;
    NotSpent(s, ops, x, k);
  }

  lemma OthersFresh(s: Store, ops: seq<Op>, x: Spent, k: nat, before: Store, after: Store)
    requires Rivals(s, ops, x) && k < |ops| && FreshFrom(before, ops, k) && Exchanging(ops[k])
    requires forall api, token :: Fresh(before, api, token) && api != ops[k].api && token != ops[k].token ==>
               Fresh(after, api, token)
    ensures FreshFrom(after, ops, k + 1)
  {
    hide Fresh; hide Redeemable; hide TokenOf;
    forall i | k + 1 <= i < |ops| ensures Exchanging(ops[i]) && Fresh(after, ops[i].api, ops[i].token) {
      assert ops[k].api != ops[i].api && ops[k].token != ops[i].token;
    }
  }

  lemma IssuedSpends(op: Op, account: string)
    ensures SpentBy(Issued(op, account)) == TokenOf(op)
  {
  }

  lemma TokensAdd(ops: seq<Op>, k: nat)
    requires k < |ops|
    ensures TokensOf(ops[..k + 1]) == TokensOf(ops[..k]) + {NewToken(ops[k])}
  {
    hide NewToken;
    forall t ensures t in TokensOf(ops[..k + 1]) <==> t in TokensOf(ops[..k]) + {NewToken(ops[k])} {
      if t in TokensOf(ops[..k]) {
        var i :| 0 <= i < k && NewToken(ops[..k][i]) == t;
        assert NewToken(ops[..k + 1][i]) == t;
      }
      if t == NewToken(ops[k]) {
        assert NewToken(ops[..k + 1][k]) == t;
      }
      if t in TokensOf(ops[..k + 1]) {
        var i :| 0 <= i < k + 1 && NewToken(ops[..k + 1][i]) == t;
        assert i < k ==> NewToken(ops[..k][i]) == t;
      }
    }
  }

  /** The new tokens are not the one that is exchanged. */
  lemma NotSpent(s: Store, ops: seq<Op>, x: Spent, k: nat)
    requires Rivals(s, ops, x) && FreshFrom(s, ops, 0) && k <= |ops|
    ensures SpentToken(x) !! TokensOf(ops[..k])
  {
    forall t | t in TokensOf(ops[..k]) ensures t !in SpentToken(x) {
      var i :| 0 <= i < k && NewToken(ops[..k][i]) == t;
      FreshToken(s, ops[i].api, ops[i].token);
      assert Redeemable(s, ops[i]) && TokenOf(ops[i]) == x;
    }
  }

  lemma {:induction false} DrainsAll(s: Store, ops: seq<Op>, x: Spent, k: nat)
    requires Rivals(s, ops, x) && Sound(s) && FreshFrom(s, ops, 0) && 1 <= |ops| && k <= |ops|
    ensures Drained(s, ops, x, k, Play(World(s, [], []), AllRead(ops, k)))
  {
    hide Sound; hide Play; hide Drained; hide Rivals; hide FreshFrom; hide Take;
    if k == 0 {
      ReadsAll(s, ops, x);
      NoneDrained(s, ops, x);
    } else {
      DrainsAll(s, ops, x, k - 1);
      assert AllRead(ops, k) == AllRead(ops, k - 1) + [Finish(0)];
      Onward(World(s, [], []), AllRead(ops, k - 1), Finish(0));
      OneMoreDrained(s, ops, x, k - 1, Play(World(s, [], []), AllRead(ops, k - 1)));
    }
  }

  lemma NoneDrained(s: Store, ops: seq<Op>, x: Spent)
    requires Rivals(s, ops, x) && Sound(s) && FreshFrom(s, ops, 0) && 1 <= |ops|
    ensures Drained(s, ops, x, 0, World(s, Holds(ops, OwnerOfToken(s, x)), []))
  {
    assert Redeemable(s, ops[0]) && TokenOf(ops[0]) == x;
    assert ops[..0] == [] && TokensOf([]) == {};
  }

  /**
   * The bound is reached for every number of calls: a redeemable token or code
   * that n calls read before any marks it is exchanged n times, and n refresh
   * tokens come of it.
   */
  lemma HeldTogetherExchangedByAll(s: Store, ops: seq<Op>, x: Spent)
    requires Rivals(s, ops, x) && Sound(s) && FreshFrom(s, ops, 0) && 1 <= |ops|
    ensures var w := Play(World(s, [], []), AllRead(ops, |ops|));
            var owner := OwnerOfToken(s, x);
            && Exchanges(w.events, x) == |ops|
            && Unused(w.store, owner) == Unused(s, owner) - SpentToken(x) + TokensOf(ops)
  {
    hide Play;
    DrainsAll(s, ops, x, |ops|);
    assert ops[..|ops|] == ops;
  }
}
