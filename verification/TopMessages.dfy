/** The table of most recent messages: a map and a linked list, against the history of increments. */
module TopMessages {
  const MAX_ENTRIES: nat := 16
  const MAX_LENGTH: nat := 200

  datatype Entry = Entry(msg: string, count: nat)

  /** Entries, or messages, from the least to the most recently incremented. */
  function Msgs(entries: seq<Entry>): (r: seq<string>)
    ensures |r| == |entries| && forall i :: 0 <= i < |r| ==> r[i] == entries[i].msg
  {
    seq(|entries|, i requires 0 <= i < |entries| => entries[i].msg)
  }

  ghost predicate Unique(s: seq<string>) {
    forall i, j :: 0 <= i < j < |s| ==> s[i] != s[j]
  }

  function Without(s: seq<string>, x: string): seq<string>
    decreases |s|
  {
    if s == [] then []
    else
      var n := |s| - 1;
      Without(s[..n], x) + (if s[n] == x then [] else [s[n]])
  }

  function EntriesWithout(s: seq<Entry>, x: string): seq<Entry>
    decreases |s|
  {
    if s == [] then []
    else
      var n := |s| - 1;
      EntriesWithout(s[..n], x) + (if s[n].msg == x then [] else [s[n]])
  }

  function CountIn(s: seq<Entry>, x: string): nat
    decreases |s|
  {
    if s == [] then 0
    else
      var n := |s| - 1;
      if s[n].msg == x then s[n].count else CountIn(s[..n], x)
  }

  /** Inc, on the table as a value. */
  function Incremented(entries: seq<Entry>, msg: string): seq<Entry> {
    if msg in Msgs(entries) then EntriesWithout(entries, msg) + [Entry(msg, CountIn(entries, msg) + 1)]
    else if |entries| < MAX_ENTRIES then entries + [Entry(msg, 1)]
    else (entries + [Entry(msg, 1)])[1..]
  }

  /** The table after a history of increments. */
  function Table(history: seq<string>): seq<Entry>
    decreases |history|
  {
    if history == [] then []
    else Incremented(Table(history[..|history| - 1]), history[|history| - 1])
  }

  // ---------- what the table should hold ----------

  /** The distinct messages of a history, in the order of their last increments. */
  function ByRecency(history: seq<string>): seq<string>
    decreases |history|
  {
    if history == [] then []
    else
      var n := |history| - 1;
      Without(ByRecency(history[..n]), history[n]) + [history[n]]
  }

  function LastFew(s: seq<string>): seq<string> {
    if |s| <= MAX_ENTRIES then s else s[|s| - MAX_ENTRIES..]
  }

  /** The 16 most recently incremented distinct messages. */
  function Recent(history: seq<string>): seq<string> {
    LastFew(ByRecency(history))
  }

  function Occurrences(history: seq<string>, msg: string): nat
    decreases |history|
  {
    if history == [] then 0
    else Occurrences(history[..|history| - 1], msg) + (if history[|history| - 1] == msg then 1 else 0)
  }

  lemma {:induction false} WithoutMembers(s: seq<string>, x: string)
    ensures x !in Without(s, x)
    ensures forall y :: y in Without(s, x) <==> y in s && y != x
    ensures |Without(s, x)| <= |s|
    decreases |s|
  {
    if s != [] {
      WithoutMembers(s[..|s| - 1], x);
      assert s == s[..|s| - 1] + [s[|s| - 1]];
    }
  }

  lemma {:induction false} WithoutUnique(s: seq<string>, x: string)
    requires Unique(s)
    ensures Unique(Without(s, x))
    ensures |Without(s, x)| == if x in s then |s| - 1 else |s|
    decreases |s|
  {
    if s != [] {
      var n := |s| - 1;
      WithoutUnique(s[..n], x);
      WithoutMembers(s[..n], x);
      assert s == s[..n] + [s[n]];
      assert s[n] !in s[..n];
      assert s[n] !in Without(s[..n], x);
    }
  }

  lemma {:induction false} WithoutAbsent(s: seq<string>, x: string)
    requires x !in s
    ensures Without(s, x) == s
    decreases |s|
  {
    if s != [] {
      WithoutAbsent(s[..|s| - 1], x);
    }
  }

  lemma {:induction false} WithoutConcat(a: seq<string>, b: seq<string>, x: string)
    ensures Without(a + b, x) == Without(a, x) + Without(b, x)
    decreases |b|
  {
    if b == [] {
      assert a + b == a;
    } else {
      var n := |b| - 1;
      assert (a + b)[..|a + b| - 1] == a + b[..n];
      WithoutConcat(a, b[..n], x);
    }
  }

  lemma {:induction false} RecencyUnique(history: seq<string>)
    ensures Unique(ByRecency(history))
    ensures forall m :: m in ByRecency(history) <==> m in history
    decreases |history|
  {
    if history != [] {
      var n := |history| - 1;
      RecencyUnique(history[..n]);
      WithoutUnique(ByRecency(history[..n]), history[n]);
      WithoutMembers(ByRecency(history[..n]), history[n]);
      assert history == history[..n] + [history[n]];
    }
  }

  lemma LastFewPresent(early: seq<string>, few: seq<string>, x: string)
    requires |few| == MAX_ENTRIES && Unique(early + few) && x in few
    ensures LastFew(Without(early + few, x) + [x]) == Without(few, x) + [x]
  {
    var s := early + few;
    assert x !in early by {
      var j :| 0 <= j < |few| && few[j] == x;
      assert s[|early| + j] == x;
      assert forall i :: 0 <= i < |early| ==> s[i] == early[i];
    }
    FewUnique(early, few);
    WithoutConcat(early, few, x);
    WithoutAbsent(early, x);
    WithoutUnique(few, x);
    assert Without(s, x) + [x] == early + (Without(few, x) + [x]);
  }

  lemma LastFewAbsent(early: seq<string>, few: seq<string>, x: string)
    requires |few| == MAX_ENTRIES && early != [] && Unique(early + few) && x !in few
    ensures LastFew(Without(early + few, x) + [x]) == (few + [x])[1..]
  {
    FewUnique(early, few);
    WithoutConcat(early, few, x);
    WithoutAbsent(few, x);
    WithoutUnique(early, x);
    var kept := Without(early, x);
    assert Without(early + few, x) + [x] == kept + few + [x];
  }

  lemma FewUnique(early: seq<string>, few: seq<string>)
    requires Unique(early + few)
    ensures Unique(early) && Unique(few)
  {
    var s := early + few;
    forall i, j | 0 <= i < j < |early| ensures early[i] != early[j] {
      assert s[i] == early[i] && s[j] == early[j];
    }
    forall i, j | 0 <= i < j < |few| ensures few[i] != few[j] {
      assert s[|early| + i] == few[i] && s[|early| + j] == few[j];
    }
  }

  /** One more increment, seen from the last 16 of the recency order alone. */
  lemma LastFewStep(s: seq<string>, x: string)
    requires Unique(s)
    ensures var few := LastFew(s);
            LastFew(Without(s, x) + [x]) ==
              if x in few then Without(few, x) + [x]
              else if |few| < MAX_ENTRIES then few + [x] else (few + [x])[1..]
  {
    hide Without;
    if |s| <= MAX_ENTRIES {
      LastFewShort(s, x);
    } else {
      var early, few := s[..|s| - MAX_ENTRIES], LastFew(s);
      assert s == early + few;
      if x in few {
        LastFewPresent(early, few, x);
      } else {
        LastFewAbsent(early, few, x);
      }
    }
  }

  lemma LastFewShort(s: seq<string>, x: string)
    requires Unique(s) && |s| <= MAX_ENTRIES
    ensures LastFew(Without(s, x) + [x]) ==
              if x in s then Without(s, x) + [x] else if |s| < MAX_ENTRIES then s + [x] else (s + [x])[1..]
  {
    WithoutUnique(s, x);
    if x !in s {
      WithoutAbsent(s, x);
    }
  }

  lemma {:induction false} MsgsWithout(entries: seq<Entry>, x: string)
    ensures Msgs(EntriesWithout(entries, x)) == Without(Msgs(entries), x)
    decreases |entries|
  {
    if entries != [] {
      var n := |entries| - 1;
      MsgsWithout(entries[..n], x);
      assert Msgs(entries)[..n] == Msgs(entries[..n]);
    }
  }

  lemma {:induction false} CountWithout(entries: seq<Entry>, x: string, y: string)
    requires y != x
    ensures CountIn(EntriesWithout(entries, x), y) == CountIn(entries, y)
    decreases |entries|
  {
    if entries != [] {
      var n := |entries| - 1;
      CountWithout(entries[..n], x, y);
      if entries[n].msg != x {
        CountAppend(EntriesWithout(entries[..n], x), entries[n], y);
      } else {
        assert EntriesWithout(entries, x) == EntriesWithout(entries[..n], x);
      }
    }
  }

  /** Map and list hold exactly the 16 most recently incremented messages, least recent first. */
  lemma {:induction false} TableHoldsRecent(history: seq<string>)
    ensures Msgs(Table(history)) == Recent(history)
    ensures Unique(Msgs(Table(history)))
    ensures var distinct := |ByRecency(history)|; |Table(history)| == if distinct < 16 then distinct else 16
    decreases |history|
  {
    if history != [] {
      var n := |history| - 1;
      var x := history[n];
      var before := Table(history[..n]);
      TableHoldsRecent(history[..n]);
      RecencyUnique(history[..n]);
      RecencyUnique(history);
      LastFewStep(ByRecency(history[..n]), x);
      IncrementedMsgs(before, x);
      LastFewUnique(ByRecency(history));
    }
  }

  lemma LastFewUnique(s: seq<string>)
    requires Unique(s)
    ensures Unique(LastFew(s)) && |LastFew(s)| <= MAX_ENTRIES
  {
  }

  lemma IncrementedMsgs(before: seq<Entry>, x: string)
    ensures Msgs(Incremented(before, x)) ==
              if x in Msgs(before) then Without(Msgs(before), x) + [x]
              else if |before| < MAX_ENTRIES then Msgs(before) + [x] else (Msgs(before) + [x])[1..]
  {
    hide EntriesWithout; hide Without; hide CountIn;
    MsgsWithout(before, x);
  }

  lemma {:induction false} CountAppend(entries: seq<Entry>, e: Entry, y: string)
    ensures CountIn(entries + [e], y) == if e.msg == y then e.count else CountIn(entries, y)
  {
    assert (entries + [e])[..|entries|] == entries;
  }

  lemma {:induction false} CountDrop(entries: seq<Entry>, y: string)
    requires entries != [] && y in Msgs(entries[1..])
    ensures CountIn(entries[1..], y) == CountIn(entries, y)
    decreases |entries|
  {
    var n := |entries| - 1;
    if entries[n].msg != y {
      assert entries[1..][..n - 1] == entries[..n][1..];
      var i :| 0 <= i < |entries[1..]| && Msgs(entries[1..])[i] == y;
      assert i < n - 1 && Msgs(entries[..n][1..])[i] == y;
      CountDrop(entries[..n], y);
    }
  }

  /** What one increment does to the count of a message that is held afterwards. */
  lemma IncrementedCount(before: seq<Entry>, x: string, y: string)
    requires y in Msgs(Incremented(before, x))
    ensures CountIn(Incremented(before, x), y) ==
              (if y in Msgs(before) then CountIn(before, y) else 0) + (if x == y then 1 else 0)
  {
    hide EntriesWithout; hide CountIn; hide Without; hide Msgs;
    IncrementedMsgs(before, x);
    if x in Msgs(before) {
      CountAppend(EntriesWithout(before, x), Entry(x, CountIn(before, x) + 1), y);
      WithoutMembers(Msgs(before), x);
      if y != x {
        CountWithout(before, x, y);
      }
    } else {
      PushedCount(before, x, y);
    }
  }

  lemma PushedCount(before: seq<Entry>, x: string, y: string)
    requires x !in Msgs(before) && y in Msgs(Incremented(before, x))
    ensures CountIn(Incremented(before, x), y) ==
              (if y in Msgs(before) then CountIn(before, y) else 0) + (if x == y then 1 else 0)
  {
    hide EntriesWithout; hide CountIn;
    var all := before + [Entry(x, 1)];
    CountAppend(before, Entry(x, 1), y);
    assert Msgs(all) == Msgs(before) + [x];
    if |before| >= MAX_ENTRIES {
      MsgsTail(all);
      CountDrop(all, y);
    }
  }

  lemma MsgsFront(entries: seq<Entry>)
    requires entries != []
    ensures var n := |entries| - 1;
            Msgs(entries[..n]) == Msgs(entries)[..n] && Msgs(entries)[n] == entries[n].msg
  {
    var n := |entries| - 1;
    forall i | 0 <= i < n ensures Msgs(entries[..n])[i] == Msgs(entries)[..n][i] {
      assert entries[..n][i] == entries[i];
    }
  }

  lemma MsgsTail(entries: seq<Entry>)
    requires entries != []
    ensures Msgs(entries[1..]) == Msgs(entries)[1..]
  {
    forall i | 0 <= i < |entries| - 1 ensures Msgs(entries[1..])[i] == Msgs(entries)[1..][i] {
      assert entries[1..][i] == entries[i + 1];
    }
  }

  /** A message was absent after i increments and held after each later one. */
  ghost predicate HeldSince(history: seq<string>, msg: string, i: nat) {
    && i <= |history|
    && msg !in Recent(history[..i])
    && forall j :: i < j <= |history| ==> msg in Recent(history[..j])
  }

  lemma HeldLonger(history: seq<string>, msg: string, i: nat)
    requires history != [] && HeldSince(history[..|history| - 1], msg, i) && msg in Recent(history)
    ensures HeldSince(history, msg, i)
  {
    hide Recent;
    var before := history[..|history| - 1];
    assert history[..i] == before[..i];
    forall j | i < j <= |history| ensures msg in Recent(history[..j]) {
      if j < |history| {
        assert history[..j] == before[..j];
      } else {
        assert history[..j] == history;
      }
    }
  }

  lemma HeldNow(history: seq<string>, msg: string)
    requires history != [] && msg !in Recent(history[..|history| - 1]) && msg in Recent(history)
    ensures HeldSince(history, msg, |history| - 1)
  {
    hide Recent;
    assert history[..|history|] == history;
  }

  lemma OccurrencesStep(history: seq<string>, i: nat, msg: string)
    requires i < |history|
    ensures var n := |history| - 1;
            Occurrences(history[i..], msg) == Occurrences(history[..n][i..], msg) + (if history[n] == msg then 1 else 0)
  {
    var n := |history| - 1;
    assert history[i..][..|history[i..]| - 1] == history[..n][i..];
  }

  /**
   * The count of a held message is the number of its increments since it was
   * last absent.
   */
  lemma {:induction false} CountSinceAbsent(history: seq<string>, msg: string) returns (i: nat)
    requires msg in Recent(history)
    ensures HeldSince(history, msg, i)
    ensures CountIn(Table(history), msg) == Occurrences(history[i..], msg)
    decreases |history|
  {
    hide Recent; hide HeldSince; hide Incremented; hide CountIn;
    TableHoldsRecent(history);
    assert history != [] by { HoldsNothing(msg); }
    var n := |history| - 1;
    var before := history[..n];
    TableHoldsRecent(before);
    IncrementedCount(Table(before), history[n], msg);
    if msg in Recent(before) {
      i := CountSinceAbsent(before, msg);
      HeldWithin(before, msg, i);
      HeldLonger(history, msg, i);
      OccurrencesStep(history, i, msg);
    } else {
      i := n;
      HeldNow(history, msg);
      OccurrencesStep(history, n, msg);
      assert history[..n][n..] == [];
    }
  }

  lemma HeldWithin(history: seq<string>, msg: string, i: nat)
    requires HeldSince(history, msg, i)
    ensures i <= |history|
  {
  }

  lemma HoldsNothing(msg: string)
    ensures msg !in Recent([])
  {
  }

  // ---------- the snapshot ----------

  /** Byte order of messages. */
  predicate Less(a: string, b: string)
    decreases |a|
  {
    if b == "" then false
    else if a == "" then true
    else a[0] < b[0] || (a[0] == b[0] && Less(a[1..], b[1..]))
  }

  lemma {:induction false} LessTotal(a: string, b: string)
    ensures a == b || Less(a, b) || Less(b, a)
    ensures !(Less(a, b) && Less(b, a)) && !Less(a, a)
    decreases |a|
  {
    if a != "" && b != "" && a[0] == b[0] {
      LessTotal(a[1..], b[1..]);
      assert a == [a[0]] + a[1..] && b == [b[0]] + b[1..];
    }
    if a != "" {
      LessTotal(a[1..], a[1..]);
    }
  }

  lemma {:induction false} LessTransitive(a: string, b: string, c: string)
    requires Less(a, b) && Less(b, c)
    ensures Less(a, c)
    decreases |a|
  {
    if a != "" && a[0] == b[0] == c[0] {
      LessTransitive(a[1..], b[1..], c[1..]);
    }
  }

  /** The order of a snapshot: count descending, then message ascending. */
  predicate Before(a: Entry, b: Entry) {
    if a.count == b.count then Less(a.msg, b.msg) else a.count > b.count
  }

  lemma BeforeTotal(a: Entry, b: Entry)
    ensures a == b || Before(a, b) || Before(b, a)
    ensures !(Before(a, b) && Before(b, a))
  {
    LessTotal(a.msg, b.msg);
  }

  lemma BeforeTransitive(a: Entry, b: Entry, c: Entry)
    requires Before(a, b) && Before(b, c)
    ensures Before(a, c)
  {
    if a.count == b.count == c.count {
      LessTransitive(a.msg, b.msg, c.msg);
    }
  }

  /** The messages differ first at i, where `a` ends or has the smaller character. */
  predicate SmallerAt(a: string, b: string, i: int) {
    0 <= i <= |a| && i < |b| && a[..i] == b[..i] && (i == |a| || a[i] < b[i])
  }

  /** Byte order: the first difference decides, and a prefix comes first. */
  lemma {:induction false} LessExactly(a: string, b: string)
    ensures Less(a, b) <==> exists i :: SmallerAt(a, b, i)
    decreases |a|
  {
    if a == "" || b == "" || a[0] != b[0] {
      if Less(a, b) {
        assert SmallerAt(a, b, 0);
      }
    } else {
      LessExactly(a[1..], b[1..]);
      if Less(a, b) {
        var i :| SmallerAt(a[1..], b[1..], i);
        assert a[..i + 1] == [a[0]] + a[1..][..i] && b[..i + 1] == [b[0]] + b[1..][..i];
        assert SmallerAt(a, b, i + 1);
      }
      if i :| SmallerAt(a, b, i) {
        assert i > 0 && a[1..][..i - 1] == a[..i][1..] && b[1..][..i - 1] == b[..i][1..];
        assert SmallerAt(a[1..], b[1..], i - 1);
      }
    }
  }

  /** In a ranking the count falls, and among equal counts the messages rise. */
  lemma RankedExactly(s: seq<Entry>)
    ensures Ranked(s) <==>
              forall i, j :: 0 <= i < j < |s| ==>
                s[i].count > s[j].count ||
                (s[i].count == s[j].count && exists n :: SmallerAt(s[i].msg, s[j].msg, n))
  {
    hide Less; hide SmallerAt;
    forall i, j | 0 <= i < j < |s|
      ensures Less(s[i].msg, s[j].msg) <==> exists n :: SmallerAt(s[i].msg, s[j].msg, n)
    {
      LessExactly(s[i].msg, s[j].msg);
    }
  }

  ghost predicate Ranked(s: seq<Entry>) {
    forall i, j :: 0 <= i < j < |s| ==> Before(s[i], s[j])
  }

  lemma RankedHead(s: seq<Entry>, e: Entry)
    requires s != [] && Ranked(s)
    ensures Ranked(s[1..])
    ensures e in s[1..] <==> e in s && e != s[0]
  {
    assert s == [s[0]] + s[1..];
    if e in s[1..] {
      var i :| 0 <= i < |s[1..]| && s[1..][i] == e;
      assert Before(s[0], s[i + 1]);
      BeforeTotal(s[0], e);
      LessTotal(e.msg, e.msg);
    }
  }

  lemma EmptyTogether(a: seq<Entry>, b: seq<Entry>)
    requires forall e :: e in a <==> e in b
    ensures a == [] <==> b == []
  {
    if a != [] {
      assert a[0] in b;
    }
    if b != [] {
      assert b[0] in a;
    }
  }

  /** There is only one ranking of a set of entries. */
  lemma {:induction false} RankingUnique(a: seq<Entry>, b: seq<Entry>)
    requires Ranked(a) && Ranked(b) && forall e :: e in a <==> e in b
    ensures a == b
    decreases |a|
  {
    EmptyTogether(a, b);
    if a != [] {
      assert a[0] in b;
      var x, y := a[0], b[0];
      assert y in b && y in a;
      var i :| 0 <= i < |a| && a[i] == y;
      var j :| 0 <= j < |b| && b[j] == x;
      BeforeTotal(x, y);
      assert x == y;
      forall e ensures e in a[1..] <==> e in b[1..] {
        RankedHead(a, e);
        RankedHead(b, e);
      }
      RankedHead(a, x);
      RankedHead(b, x);
      RankingUnique(a[1..], b[1..]);
      assert a == [x] + a[1..] && b == [x] + b[1..];
    }
  }

  lemma InsertRanked(s: seq<Entry>, j: nat, e: Entry)
    requires Ranked(s) && j <= |s|
    requires j > 0 ==> Before(s[j - 1], e)
    requires j < |s| ==> Before(e, s[j])
    ensures Ranked(s[..j] + [e] + s[j..])
  {
    var r := s[..j] + [e] + s[j..];
    forall i | 0 <= i < j ensures Before(s[i], e) {
      if i < j - 1 {
        BeforeTransitive(s[i], s[j - 1], e);
      }
    }
    forall i | j <= i < |s| ensures Before(e, s[i]) {
      if j < i {
        BeforeTransitive(e, s[j], s[i]);
      }
    }
    forall i, k | 0 <= i < k < |r| ensures Before(r[i], r[k]) {
      var i0, k0 := if i < j then i else i - 1, if k < j then k else k - 1;
    }
  }

  /** A place for one more entry; stands for the library sort. */
  method Insert(s: seq<Entry>, e: Entry) returns (r: seq<Entry>)
    requires Ranked(s) && e !in s
    ensures Ranked(r) && forall x :: x in r <==> x in s || x == e
  {
    var j := |s|;
    while j > 0 && Before(e, s[j - 1])
      invariant 0 <= j <= |s| && (j < |s| ==> Before(e, s[j]))
    {
      j := j - 1;
    }
    if j > 0 {
      BeforeTotal(s[j - 1], e);
    }
    InsertRanked(s, j, e);
    r := s[..j] + [e] + s[j..];
    assert s == s[..j] + s[j..];
  }

  // ---------- one entry removed ----------

  lemma {:induction false} RemovedAt(entries: seq<Entry>, p: nat, x: string)
    requires p < |entries| && entries[p].msg == x && Unique(Msgs(entries))
    ensures EntriesWithout(entries, x) == entries[..p] + entries[p + 1..]
    ensures CountIn(entries, x) == entries[p].count
    decreases |entries|
  {
    var n := |entries| - 1;
    MsgsFront(entries);
    assert Msgs(entries)[p] == x;
    hide Msgs;
    if p < n {
      assert entries[n].msg != x;
      RemovedAt(entries[..n], p, x);
      assert entries[p + 1..] == entries[..n][p + 1..] + [entries[n]];
    } else {
      KeptAll(entries[..n], x);
      assert entries[p + 1..] == [];
    }
  }

  lemma {:induction false} KeptAll(entries: seq<Entry>, x: string)
    requires x !in Msgs(entries)
    ensures EntriesWithout(entries, x) == entries
    decreases |entries|
  {
    if entries != [] {
      var n := |entries| - 1;
      MsgsFront(entries);
      hide Msgs;
      assert Msgs(entries)[n] in Msgs(entries);
      KeptAll(entries[..n], x);
      assert entries == entries[..n] + [entries[n]];
    }
  }

  // ---------- the table as objects ----------

  class TopNItem {
    const msg: string
    var count: nat

    constructor (msg: string)
      ensures this.msg == msg && count == 1
    {
      this.msg := msg;
      count := 1;
    }
  }

  function Truncated(msg: string): string {
    if |msg| <= MAX_LENGTH then msg else msg[..MAX_LENGTH]
  }

  /** Map and list hold the same items, each once. */
  ghost predicate LinkedTo(entries: map<string, TopNItem>, order: seq<TopNItem>) {
    && |entries| == |order|
    && (forall i :: 0 <= i < |order| ==> order[i].msg in entries && entries[order[i].msg] == order[i])
    && (forall i, j :: 0 <= i < j < |order| ==> order[i].msg != order[j].msg)
    && (forall msg :: msg in entries ==> entries[msg] in order && entries[msg].msg == msg)
  }

  /** Where the element at place i of the moved list came from. */
  function Origin(i: nat, p: nat, n: nat): nat {
    if i < p then i else if i < n - 1 then i + 1 else p
  }

  lemma MovedAt(order: seq<TopNItem>, p: nat)
    requires p < |order|
    ensures var moved := order[..p] + order[p + 1..] + [order[p]];
            |moved| == |order| && forall i :: 0 <= i < |moved| ==> moved[i] == order[Origin(i, p, |order|)]
  {
  }

  lemma MovedMembers(order: seq<TopNItem>, p: nat, item: TopNItem)
    requires p < |order| && item in order
    ensures item in order[..p] + order[p + 1..] + [order[p]]
  {
    assert order == order[..p] + [order[p]] + order[p + 1..];
  }

  lemma MovedLinked(entries: map<string, TopNItem>, order: seq<TopNItem>, p: nat)
    requires LinkedTo(entries, order) && p < |order|
    ensures LinkedTo(entries, order[..p] + order[p + 1..] + [order[p]])
  {
    var moved := order[..p] + order[p + 1..] + [order[p]];
    MovedAt(order, p);
    forall msg | msg in entries ensures entries[msg] in moved {
      MovedMembers(order, p, entries[msg]);
    }
  }

  class TopN {
    var entries: map<string, TopNItem>
    var order: seq<TopNItem>               // the linked list, front first
    ghost var history: seq<string>         // the messages counted, as they were cut

    ghost predicate Linked()
      reads this
    {
      LinkedTo(entries, order)
    }

    ghost predicate Sized()
      reads this
    {
      Linked() && |order| <= MAX_ENTRIES
    }

    ghost predicate Valid()
      reads this, order
    {
      Sized() && Contents() == Table(history)
    }

    ghost function Contents(): (r: seq<Entry>)
      reads this, order
    {
      seq(|order|, i requires 0 <= i < |order| reads this, order => Entry(order[i].msg, order[i].count))
    }

    constructor ()
      ensures Valid() && history == []
    {
      entries := map[];
      order := [];
      history := [];
    }

    /** The list element of an item, found by its place. */
    method Place(item: TopNItem) returns (p: nat)
      requires item in order
      ensures p < |order| && order[p] == item
    {
      p := 0;
      while order[p] != item
        invariant p < |order| && item in order[p..]
        decreases |order| - p
      {
        p := p + 1;
      }
    }

    method Inc(raw: string)
      requires Valid()
      modifies this, order
      ensures Valid()
      ensures history == if raw == "" then old(history)
                         else old(history) + [if |raw| <= 200 then raw else raw[..200]]
    {
      hide LinkedTo; hide Table; hide Incremented;
      var msg := Truncated(raw);
      if msg == "" {
        return;
      }
      HoldsMsgs();
      TableGrows(history, msg);
      if msg in entries {
        Touch(msg);
      } else {
        Push(msg);
      }
      history := history + [msg];
    }

    lemma HoldsMsgs()
      requires Sized()
      ensures Unique(Msgs(Contents()))
      ensures forall msg :: msg in entries <==> msg in Msgs(Contents())
    {
      forall msg ensures msg in entries <==> msg in Msgs(Contents()) {
        if msg in entries {
          var i :| 0 <= i < |order| && order[i] == entries[msg];
          assert Msgs(Contents())[i] == msg;
        }
      }
    }

    /** list.MoveToBack */
    method MoveToBack(item: TopNItem) returns (ghost p: nat)
      requires Linked() && item in order
      modifies this`order
      ensures Linked()
      ensures p < |old(order)| && old(order)[p] == item
      ensures order == old(order)[..p] + old(order)[p + 1..] + [item]
    {
      var place := Place(item);
      MovedLinked(entries, order, place);
      order := order[..place] + order[place + 1..] + [item];
      p := place;
    }

    /** A message that is held: count it, and move it to the back. */
    method Touch(msg: string)
      requires Sized() && msg in entries && Unique(Msgs(Contents())) && msg in Msgs(Contents())
      modifies this`order, order
      ensures Sized() && Contents() == Incremented(old(Contents()), msg)
    {
      hide EntriesWithout; hide CountIn; hide LinkedTo;
      ghost var before := Contents();
      HeldItem(msg);
      var item := entries[msg];
      item.count := item.count + 1;
      ghost var p := MoveToBack(item);
      RemovedAt(before, p, msg);
      assert Contents() == before[..p] + before[p + 1..] + [Entry(msg, before[p].count + 1)];
    }

    lemma HeldItem(msg: string)
      requires Linked() && msg in entries
      ensures entries[msg] in order && entries[msg].msg == msg
      ensures forall i, j :: 0 <= i < j < |order| ==> order[i] != order[j]
    {
      forall i, j | 0 <= i < j < |order| ensures order[i] != order[j] {
        assert order[i].msg != order[j].msg;
      }
    }

    /** list.PushBack, with the map entry. */
    method PushBack(item: TopNItem)
      requires Linked() && item.msg !in entries
      modifies this`entries, this`order
      ensures Linked() && order == old(order) + [item]
      ensures |entries| == |order|
    {
      order := order + [item];
      entries := entries[item.msg := item];
    }

    /** Remove the front of the list, and its map entry. */
    method EvictFront()
      requires Linked() && order != []
      modifies this`entries, this`order
      ensures Linked() && order == old(order)[1..]
    {
      hide LinkedTo;
      assert order[0].msg in entries by { FrontHeld(entries, order); }
      EvictedLinked(entries, order);
      var oldest := order[0];
      entries := entries - {oldest.msg};
      order := order[1..];
    }

    /** A message that is not held: push it to the back, and evict the front when the table is full. */
    method Push(msg: string)
      requires Sized() && msg !in entries && msg !in Msgs(Contents())
      modifies this`entries, this`order
      ensures Sized() && Contents() == Incremented(old(Contents()), msg)
    {
      hide LinkedTo;
      ghost var before := Contents();
      var item := new TopNItem(msg);
      PushBack(item);
      assert Contents() == before + [Entry(msg, 1)];
      if |entries| <= MAX_ENTRIES {
        return;
      }
      EvictFront();
      assert Contents() == (before + [Entry(msg, 1)])[1..];
    }

    /**
     * Snapshot: whatever order the map is iterated in, the entries come out in
     * the one ranking there is, those of the most recently counted messages.
     */
    method Snapshot() returns (ranked: seq<Entry>)
      requires Valid()
      ensures Ranked(ranked) && forall e :: e in ranked <==> e in Table(history)
      ensures forall msg :: (exists e :: e in ranked && e.msg == msg) <==> msg in Recent(history)
    {
      ranked := Rank();
      HeldRecently(ranked, history);
    }

    /** The entries in their ranking. */
    method Rank() returns (ranked: seq<Entry>)
      requires Sized()
      ensures Ranked(ranked) && forall e :: e in ranked <==> e in Contents()
    {
      ranked := [];
      var todo := entries.Keys;
      while todo != {}
        invariant todo <= entries.Keys
        invariant Ranked(ranked)
        invariant forall e: Entry :: e in ranked <==>
            e.msg in entries && e.msg !in todo && e.count == entries[e.msg].count
        decreases todo
      {
        var msg :| msg in todo;
        ranked := Insert(ranked, Entry(msg, entries[msg].count));
        todo := todo - {msg};
      }
      forall e: Entry ensures e.msg in entries && e.count == entries[e.msg].count <==> e in Contents() {
        if e.msg in entries && e.count == entries[e.msg].count {
          var i :| 0 <= i < |order| && order[i] == entries[e.msg];
          assert Contents()[i] == e;
        }
      }
    }
  }

  lemma EvictedLinked(entries: map<string, TopNItem>, order: seq<TopNItem>)
    requires LinkedTo(entries, order) && order != []
    ensures LinkedTo(entries - {order[0].msg}, order[1..])
  {
    var rest := entries - {order[0].msg};
    assert order == [order[0]] + order[1..];
    assert rest.Keys == entries.Keys - {order[0].msg};
    forall msg | msg in rest ensures rest[msg] in order[1..] && rest[msg].msg == msg {
      assert entries[msg] in order && entries[msg] != order[0];
    }
  }

  lemma FrontHeld(entries: map<string, TopNItem>, order: seq<TopNItem>)
    requires LinkedTo(entries, order) && order != []
    ensures order[0].msg in entries
  {
  }

  lemma TableGrows(history: seq<string>, msg: string)
    ensures Table(history + [msg]) == Incremented(Table(history), msg)
  {
    assert (history + [msg])[..|history|] == history;
  }

  lemma HeldRecently(ranked: seq<Entry>, history: seq<string>)
    requires forall e :: e in ranked <==> e in Table(history)
    ensures forall msg :: (exists e :: e in ranked && e.msg == msg) <==> msg in Recent(history)
  {
    hide Table; hide Recent;
    TableHoldsRecent(history);
    forall msg ensures (exists e :: e in ranked && e.msg == msg) <==> msg in Recent(history) {
      if msg in Recent(history) {
        var i :| 0 <= i < |Recent(history)| && Recent(history)[i] == msg;
        assert Table(history)[i] in ranked;
      }
      if e :| e in ranked && e.msg == msg {
        var i :| 0 <= i < |Table(history)| && Table(history)[i] == e;
        assert Recent(history)[i] == msg;
      }
    }
  }
}
