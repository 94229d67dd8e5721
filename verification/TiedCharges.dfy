/**
 * Feeds with charges of one time. The library sort may put them in any order,
 * so two feeds need not agree on them; polls then converge in every column but
 * the ID of the last charge.
 */
module TiedCharges {
  import opened Calendar
  import opened Domain
  import opened Lifecycle
  import opened PollSteps
  import opened Legality
  import opened PollConvergence
  import opened ChargeFeed

  predicate SameButId(a: Mailbox, b: Mailbox) {
    a == b.(lastChargeId := a.lastChargeId)
  }

  function Times(charges: seq<Charge>): (r: seq<Time>)
    ensures |r| == |charges| && forall i :: 0 <= i < |r| ==> r[i] == charges[i].at
  {
    seq(|charges|, i requires 0 <= i < |charges| => charges[i].at)
  }

  predicate Named(charges: seq<Charge>) {
    forall i :: 0 <= i < |charges| ==> charges[i].chargeId != ""
  }

  // ---------- rows and times ----------

  lemma CreditSame(m: Mailbox, m': Mailbox, c: Charge, c': Charge)
    requires SameButId(m, m') && c.at == c'.at && c.chargeId != "" && c'.chargeId != ""
    ensures SameButId(CreditRow(m, c), CreditRow(m', c'))
  {
    hide AddMonths;
  }

  /** What a list of charges makes of a row depends on their times, but for the last ID. */
  lemma {:induction false} FoldSame(m: Mailbox, m': Mailbox, a: seq<Charge>, b: seq<Charge>)
    requires SameButId(m, m') && Times(a) == Times(b) && Named(a) && Named(b)
    ensures SameButId(FoldRow(m, a), FoldRow(m', b))
    decreases |a|
  {
    hide CreditRow; hide SameButId;
    if a != [] {
      var n := |a| - 1;
      assert |b| == |a| && a[n].at == b[n].at by { assert Times(a)[n] == Times(b)[n]; }
      assert Times(a[..n]) == Times(a)[..n] && Times(b[..n]) == Times(b)[..n];
      FoldSame(m, m', a[..n], b[..n]);
      CreditSame(FoldRow(m, a[..n]), FoldRow(m', b[..n]), a[n], b[n]);
    }
  }

  lemma SameBoth(a: Mailbox, b: Mailbox, c: Mailbox)
    ensures SameButId(a, a) && (SameButId(a, b) <==> SameButId(b, a))
    ensures SameButId(a, b) && SameButId(b, c) ==> SameButId(a, c)
  {
  }

  /** Per checkout, the times of a feed are the first of the times of a fuller feed. */
  ghost predicate ShowsTimesOf(feed: seq<Charge>, all: seq<Charge>) {
    forall tag: string :: Times(Tagged(feed, tag)) <= Times(Tagged(all, tag))
  }

  lemma {:induction false} TaggedNamed(charges: seq<Charge>, tag: string)
    requires Named(charges)
    ensures Named(Tagged(charges, tag))
    decreases |charges|
  {
    if charges != [] {
      TaggedNamed(charges[..|charges| - 1], tag);
    }
  }

  /** One more poll, seen from the first n charges of the checkout. */
  lemma PolledFurther(m: Mailbox, row: Mailbox, next: Mailbox, mine: seq<Charge>, n: nat, part: seq<Charge>)
    requires n <= |mine| && SameButId(row, FoldRow(m, mine[..n])) && next == FoldRow(row, part)
    requires Named(mine) && Named(part) && Times(part) <= Times(mine)
    ensures SameButId(next, FoldRow(m, mine[..if n <= |part| then |part| else n]))
  {
    hide FoldRow; hide SameButId;
    var same := mine[..|part|];
    assert Times(same) == Times(part);
    FoldSame(row, FoldRow(m, mine[..n]), part, same);
    assert mine[..n] <= same || same <= mine[..n];
    FoldPrefixes(m, mine[..n], same);
  }

  lemma {:induction false} TiedPollsRow(st: State, polls: seq<Attempt>, all: seq<Charge>, k: nat) returns (n: nat)
    requires Consistent(st) && !st.freeMode && k < |st.rows| && st.rows[k].KeyBound() && Named(all)
    requires forall i :: 0 <= i < |polls| && polls[i].feed.Some? ==>
               ShowsTimesOf(polls[i].feed.value, all) && Named(polls[i].feed.value)
    ensures var after := AfterPolls(st, polls);
            && Consistent(after) && !after.freeMode && |after.rows| == |st.rows|
            && SameCheckout(st.rows[k], after.rows[k])
            && n <= |Tagged(all, st.rows[k].session)|
            && SameButId(after.rows[k], FoldRow(st.rows[k], Tagged(all, st.rows[k].session)[..n]))
    decreases |polls|
  {
    hide PollPrefix; hide FoldRow; hide Consistent; hide SameButId; hide Named; hide Tagged;
    var mine := Tagged(all, st.rows[k].session);
    if polls == [] {
      n := 0;
      FoldNothing(st.rows[k]);
      SameBoth(st.rows[k], st.rows[k], st.rows[k]);
    } else {
      n := TiedPollsRow(st, polls[..|polls| - 1], all, k);
      var before := AfterPolls(st, polls[..|polls| - 1]);
      var last := polls[|polls| - 1];
      PollLegal(before, last.feed, last.faults);
      RunKeepsConsistent(before, Poll(before, last.feed, last.faults).effects);
      ModeKept(before, Poll(before, last.feed, last.faults).effects);
      if last.feed.Some? {
        var part := RowPart(before, last.feed.value, last.faults, k);
        TaggedNamed(all, st.rows[k].session);
        TaggedNamed(last.feed.value, st.rows[k].session);
        PartNamed(part, Tagged(last.feed.value, st.rows[k].session));
        PolledFurther(st.rows[k], before.rows[k], AfterPolls(st, polls).rows[k], mine, n, part);
        n := if n <= |part| then |part| else n;
      }
    }
  }

  lemma PartNamed(part: seq<Charge>, whole: seq<Charge>)
    requires part <= whole && Named(whole)
    ensures Named(part) && Times(part) <= Times(whole)
  {
  }

  /** What one poll does to a key-bound row: it folds in the first of the charges of its tag, all of them on success. */
  lemma RowPart(st: State, feed: seq<Charge>, faults: Faults, k: nat) returns (part: seq<Charge>)
    requires Consistent(st) && !st.freeMode && k < |st.rows| && st.rows[k].KeyBound()
    ensures var t := Poll(st, Some(feed), faults);
            var rows := Replay(st, t.effects).rows;
            && |rows| == |st.rows| && rows[k] == FoldRow(st.rows[k], part) && SameCheckout(st.rows[k], rows[k])
            && part <= Tagged(feed, st.rows[k].session)
            && (t.ok ==> part == Tagged(feed, st.rows[k].session))
  {
    hide PollPrefix; hide FoldRow;
    var t := Poll(st, Some(feed), faults);
    PollRow(st, feed, |feed|, faults, k);
    part := PolledPart(st.rows[k], Replay(st, t.effects).rows[k], feed, t.ok);
  }

  /**
   * Polls of feeds that agree on the times of each checkout, as far as they go,
   * converge whatever the order of equal times: after one successful poll of
   * all charges every key-bound row is, but for the last ID, as one
   * uninterrupted poll of any such ordering leaves it.
   */
  lemma TiedPollsConverge(st: State, polls: seq<Attempt>, all: seq<Charge>, other: seq<Charge>, faults: Faults, k: nat)
    requires Consistent(st) && !st.freeMode && k < |st.rows| && st.rows[k].KeyBound() && Named(all) && Named(other)
    requires forall i :: 0 <= i < |polls| && polls[i].feed.Some? ==>
               ShowsTimesOf(polls[i].feed.value, all) && Named(polls[i].feed.value)
    requires Times(Tagged(other, st.rows[k].session)) == Times(Tagged(all, st.rows[k].session))
    requires Poll(AfterPolls(st, polls), Some(all), faults).ok
    ensures var final := Replay(AfterPolls(st, polls), Poll(AfterPolls(st, polls), Some(all), faults).effects);
            && k < |final.rows|
            && SameButId(final.rows[k], FoldRow(st.rows[k], Tagged(all, st.rows[k].session)))
            && forall calm: Faults :: Poll(st, Some(other), calm).ok ==>
                 var once := Replay(st, Poll(st, Some(other), calm).effects);
                 k < |once.rows| && SameButId(final.rows[k], once.rows[k])
  {
    hide Poll; hide FoldRow; hide SameButId; hide Consistent; hide Named; hide Tagged; hide Times;
    var m := st.rows[k];
    var mine, theirs := Tagged(all, m.session), Tagged(other, m.session);
    var n := TiedPollsRow(st, polls, all, k);
    var before := AfterPolls(st, polls);
    var final := Replay(before, Poll(before, Some(all), faults).effects);
    var part := RowPart(before, all, faults, k);
    SameCheckoutBound(m, before.rows[k]);
    TaggedNamed(all, m.session);
    TaggedNamed(other, m.session);
    PolledFurther(m, before.rows[k], final.rows[k], mine, n, part);
    assert mine[..|part|] == mine;
    forall calm: Faults | Poll(st, Some(other), calm).ok
      ensures var once := Replay(st, Poll(st, Some(other), calm).effects);
              k < |once.rows| && SameButId(final.rows[k], once.rows[k])
    {
      var whole := RowPart(st, other, calm, k);
      SameBoth(m, m, m);
      FoldSame(m, m, mine, theirs);
      var once := Replay(st, Poll(st, Some(other), calm).effects);
      SameBoth(final.rows[k], FoldRow(m, mine), once.rows[k]);
    }
  }

  lemma SameCheckoutBound(m: Mailbox, row: Mailbox)
    requires SameCheckout(m, row)
    ensures row.KeyBound() == m.KeyBound() && row.session == m.session
  {
  }

  // ---------- real feeds ----------

  ghost predicate Ascending(s: seq<Time>) {
    forall i, j :: 0 <= i < j < |s| ==> s[i] <= s[j]
  }

  /** Of two ascending lists, the one that has all of the other's and otherwise nothing earlier begins with it. */
  lemma {:induction false} BeginsWith(a: seq<Time>, b: seq<Time>, extra: multiset<Time>)
    requires Ascending(a) && Ascending(b) && multiset(b) == multiset(a) + extra
    requires forall x, y :: x in a && y in extra ==> x <= y
    ensures a <= b
    decreases |a|
  {
    if a != [] {
      SameHead(a, b, extra);
      SameRest(a, b, extra);
      hide Ascending;
      BeginsWith(a[1..], b[1..], extra);
      assert a == [a[0]] + a[1..] && b == [b[0]] + b[1..];
    }
  }

  lemma SameHead(a: seq<Time>, b: seq<Time>, extra: multiset<Time>)
    requires a != [] && Ascending(a) && Ascending(b) && multiset(b) == multiset(a) + extra
    requires forall x, y :: x in a && y in extra ==> x <= y
    ensures b != [] && a[0] == b[0]
  {
    assert a[0] in multiset(a) && a[0] in multiset(b);
    var i :| 0 <= i < |b| && b[i] == a[0];
    forall x | x in multiset(b) ensures a[0] <= x {
      if x in multiset(a) {
        var j :| 0 <= j < |a| && a[j] == x;
      } else {
        assert x in extra && a[0] in a;
      }
    }
    assert b[0] in multiset(b);
  }

  lemma SameRest(a: seq<Time>, b: seq<Time>, extra: multiset<Time>)
    requires a != [] && b != [] && a[0] == b[0] && Ascending(a) && Ascending(b) && multiset(b) == multiset(a) + extra
    requires forall x, y :: x in a && y in extra ==> x <= y
    ensures Ascending(a[1..]) && Ascending(b[1..]) && multiset(b[1..]) == multiset(a[1..]) + extra
    ensures forall x, y :: x in a[1..] && y in extra ==> x <= y
  {
    assert a == [a[0]] + a[1..] && b == [b[0]] + b[1..];
    assert multiset(a) == multiset{a[0]} + multiset(a[1..]) && multiset(b) == multiset{b[0]} + multiset(b[1..]);
    forall x ensures multiset(b[1..])[x] == (multiset(a[1..]) + extra)[x] {
      assert multiset(b)[x] == multiset(a)[x] + extra[x];
    }
    assert forall x :: x in a[1..] ==> x in a;
  }

  lemma {:induction false} TaggedAscending(charges: seq<Charge>, tag: string)
    requires SortedByTime(charges)
    ensures Ascending(Times(Tagged(charges, tag)))
    decreases |charges|
  {
    if charges != [] {
      var n := |charges| - 1;
      TaggedAscending(charges[..n], tag);
      TaggedMembers(charges[..n], tag);
      var front := Tagged(charges[..n], tag);
      forall i | 0 <= i < |front| ensures front[i].at <= charges[n].at {
        assert front[i] in charges[..n];
      }
      assert forall i :: 0 <= i < |front| ==> Tagged(charges, tag)[i] == front[i];
      assert forall i :: 0 <= i < |front| ==> Times(front)[i] == front[i].at;
    }
  }

  lemma {:induction false} TaggedConcat(a: seq<Charge>, b: seq<Charge>, tag: string)
    ensures Tagged(a + b, tag) == Tagged(a, tag) + Tagged(b, tag)
    decreases |b|
  {
    if b == [] {
      assert a + b == a;
    } else {
      var n := |b| - 1;
      assert (a + b)[..|a + b| - 1] == a + b[..n];
      TaggedConcat(a, b[..n], tag);
    }
  }

  lemma TimesConcat(a: seq<Charge>, b: seq<Charge>)
    ensures Times(a + b) == Times(a) + Times(b)
  {
  }

  ghost function TimesOf(charges: seq<Charge>, tag: string): multiset<Time> {
    multiset(Times(Tagged(charges, tag)))
  }

  lemma TimesOfConcat(a: seq<Charge>, b: seq<Charge>, tag: string)
    ensures TimesOf(a + b, tag) == TimesOf(a, tag) + TimesOf(b, tag)
  {
    hide Tagged; hide Times;
    TaggedConcat(a, b, tag);
    TimesConcat(Tagged(a, tag), Tagged(b, tag));
  }

  /** The last charge of one list, found in another order of it. */
  lemma TakeOut(a: seq<Charge>, b: seq<Charge>) returns (front: seq<Charge>, back: seq<Charge>)
    requires a != [] && multiset(a) == multiset(b)
    ensures var n := |a| - 1;
            && a == a[..n] + [a[n]] && b == front + ([a[n]] + back)
            && multiset(front + back) == multiset(a[..n])
  {
    var n := |a| - 1;
    assert a == a[..n] + [a[n]];
    assert a[n] in multiset(b);
    var i :| 0 <= i < |b| && b[i] == a[n];
    front, back := b[..i], b[i + 1..];
    assert b == front + ([a[n]] + back);
    SameRemainder(a[..n], front, back, a[n], multiset(a));
  }

  lemma SameRemainder(a: seq<Charge>, front: seq<Charge>, back: seq<Charge>, c: Charge, all: multiset<Charge>)
    requires multiset(a + [c]) == all == multiset(front + ([c] + back))
    ensures multiset(front + back) == multiset(a)
  {
    assert multiset(a) == all - multiset{c};
    assert multiset(front + back) == all - multiset{c};
  }

  /** The times of a checkout do not depend on the order of the charges, as a multiset. */
  lemma {:induction false} TimesPermute(a: seq<Charge>, b: seq<Charge>, tag: string)
    requires multiset(a) == multiset(b)
    ensures TimesOf(a, tag) == TimesOf(b, tag)
    decreases |a|
  {
    hide TimesOf;
    if a == [] {
      assert |multiset(b)| == 0;
    } else {
      var n := |a| - 1;
      var c := a[n];
      var front, back := TakeOut(a, b);
      TimesPermute(a[..n], front + back, tag);
      TimesOfConcat(a[..n], [c], tag);
      TimesOfConcat(front, [c] + back, tag);
      TimesOfConcat([c], back, tag);
      TimesOfConcat(front, back, tag);
    }
  }

  /**
   * Two sorted feeds of which the later has new charges only at or after the
   * last old ones of their checkout agree on times, ties or not.
   */
  lemma GrowingFeedShowsTimes(feed: seq<Charge>, fuller: seq<Charge>, added: seq<Charge>)
    requires SortedByTime(feed) && SortedByTime(fuller) && multiset(fuller) == multiset(feed + added)
    requires forall c, d :: c in feed && d in added && c.tag == d.tag ==> c.at <= d.at
    ensures ShowsTimesOf(feed, fuller)
  {
    hide SortedByTime; hide Tagged; hide Times;
    forall tag: string ensures Times(Tagged(feed, tag)) <= Times(Tagged(fuller, tag)) {
      TaggedAscending(feed, tag);
      TaggedAscending(fuller, tag);
      TimesPermute(fuller, feed + added, tag);
      TimesOfConcat(feed, added, tag);
      AddedLater(feed, added, tag);
      BeginsWith(Times(Tagged(feed, tag)), Times(Tagged(fuller, tag)), multiset(Times(Tagged(added, tag))));
    }
  }

  lemma AddedLater(feed: seq<Charge>, added: seq<Charge>, tag: string)
    requires forall c, d :: c in feed && d in added && c.tag == d.tag ==> c.at <= d.at
    ensures forall x, y :: x in Times(Tagged(feed, tag)) && y in multiset(Times(Tagged(added, tag))) ==> x <= y
  {
    TaggedMembers(feed, tag);
    TaggedMembers(added, tag);
    var a, b := Tagged(feed, tag), Tagged(added, tag);
    forall x, y | x in Times(a) && y in multiset(Times(b)) ensures x <= y {
      var i :| 0 <= i < |a| && Times(a)[i] == x;
      assert y in Times(b);
      var j :| 0 <= j < |b| && Times(b)[j] == y;
      assert a[i] in a && b[j] in b;
    }
  }
}
