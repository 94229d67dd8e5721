/** The Open Collective charge feed: complete, attributed and sorted, or an error. */
module ChargeFeed {
  import opened Calendar
  import opened Domain
  import opened Lifecycle
  import opened PollConvergence

  const PAGE_SIZE: nat := 100
  const MAX_PAGES: nat := 20

  /** `createdAt` is None for a time that is not RFC 3339. */
  datatype Transaction = Transaction(
    publicId: string, direction: string, kind: string, createdAt: Option<Time>, isRefunded: Option<bool>)

  datatype Order = Order(
    publicId: string, frequency: string, tier: Option<string>, tags: seq<string>, transactions: seq<Transaction>)

  // ---------- what the feed should be ----------

  predicate SettledTransaction(t: Transaction) {
    t.direction == "CREDIT" && t.kind == "CONTRIBUTION" && t.isRefunded == Some(false) && t.publicId != ""
  }

  /** The tags that name a checkout. */
  function CheckoutTags(tags: seq<string>): (r: seq<string>)
    ensures forall i :: 0 <= i < |r| ==> HasTagPrefix(r[i]) && r[i] in tags
    decreases |tags|
  {
    if tags == [] then []
    else
      var n := |tags| - 1;
      CheckoutTags(tags[..n]) + (if HasTagPrefix(tags[n]) then [tags[n]] else [])
  }

  /** A monthly order on the tier that is attributed to exactly one checkout. */
  predicate Creditable(order: Order, tier: string) {
    order.tier == Some(tier) && order.frequency == "MONTHLY" && order.publicId != "" && |CheckoutTags(order.tags)| == 1
  }

  /** Every settled transaction of the order has a readable time. */
  predicate WellTimed(order: Order) {
    forall i :: 0 <= i < |order.transactions| && SettledTransaction(order.transactions[i]) ==>
      order.transactions[i].createdAt.Some?
  }

  function ChargesOf(tag: string, transactions: seq<Transaction>): seq<Charge>
    decreases |transactions|
  {
    if transactions == [] then []
    else
      var n := |transactions| - 1;
      var t := transactions[n];
      ChargesOf(tag, transactions[..n])
        + (if SettledTransaction(t) && t.createdAt.Some? then [Charge(tag, t.publicId, t.createdAt.value)] else [])
  }

  /** The settled contributions of the creditable orders. */
  function Contributions(orders: seq<Order>, tier: string): seq<Charge>
    decreases |orders|
  {
    if orders == [] then []
    else
      var n := |orders| - 1;
      var order := orders[n];
      Contributions(orders[..n], tier)
        + (if Creditable(order, tier) then ChargesOf(CheckoutTags(order.tags)[0], order.transactions) else [])
  }

  predicate SortedByTime(charges: seq<Charge>) {
    forall i, j :: 0 <= i < j < |charges| ==> charges[i].at <= charges[j].at
  }

  predicate AllWellTimed(orders: seq<Order>, tier: string) {
    forall i :: 0 <= i < |orders| && Creditable(orders[i], tier) ==> WellTimed(orders[i])
  }

  // ---------- the gateway ----------

  /** singleMailboxTag: the only checkout tag; zero or several are not attributable. */
  method SingleMailboxTag(tags: seq<string>) returns (tag: string, ok: bool)
    ensures ok <==> |CheckoutTags(tags)| == 1
    ensures ok ==> tag == CheckoutTags(tags)[0]
  {
    hide CheckoutTags; hide HasTagPrefix;
    NoTags(tags);
    var found := "";
    var i := 0;
    while i < |tags|
      invariant i <= |tags|
      invariant CheckoutTags(tags[..i]) == if found == "" then [] else [found]
    {
      CheckoutTagsStep(tags, i);
      if HasTagPrefix(tags[i]) {
        if found != "" {
          CheckoutTagsGrow(tags, i + 1);
          return "", false;
        }
        found := tags[i];
      }
      i := i + 1;
    }
    assert tags[..i] == tags;
    return found, found != "";
  }

  lemma NoTags(tags: seq<string>)
    ensures CheckoutTags(tags[..0]) == []
  {
  }

  lemma CheckoutTagsStep(tags: seq<string>, n: nat)
    requires n < |tags|
    ensures CheckoutTags(tags[..n + 1]) == CheckoutTags(tags[..n]) + (if HasTagPrefix(tags[n]) then [tags[n]] else [])
    ensures HasTagPrefix(tags[n]) ==> tags[n] != ""
  {
    assert tags[..n + 1][..n] == tags[..n];
  }

  lemma {:induction false} CheckoutTagsGrow(tags: seq<string>, n: nat)
    requires n <= |tags|
    ensures |CheckoutTags(tags[..n])| <= |CheckoutTags(tags)|
    decreases |tags|
  {
    if n < |tags| {
      CheckoutTagsGrow(tags[..|tags| - 1], n);
      assert tags[..|tags| - 1][..n] == tags[..n];
    } else {
      assert tags[..n] == tags;
    }
  }

  /** fetchPage, as the remote list answers it; `lost` are the offsets whose request fails. */
  function FetchPage(orders: seq<Order>, offset: nat, lost: set<nat>): Option<seq<Order>> {
    if offset in lost then None
    else if offset >= |orders| then Some([])
    else if offset + PAGE_SIZE <= |orders| then Some(orders[offset..offset + PAGE_SIZE])
    else Some(orders[offset..])
  }

  lemma InsertSorted(sorted: seq<Charge>, j: nat, c: Charge)
    requires SortedByTime(sorted) && j <= |sorted|
    requires j > 0 ==> sorted[j - 1].at <= c.at
    requires j < |sorted| ==> c.at <= sorted[j].at
    ensures SortedByTime(sorted[..j] + [c] + sorted[j..])
  {
    var r := sorted[..j] + [c] + sorted[j..];
    forall a, b | 0 <= a < b < |r| ensures r[a].at <= r[b].at {
      assert a < j ==> r[a] == sorted[a] && sorted[a].at <= c.at;
      assert b > j ==> r[b] == sorted[b - 1] && c.at <= sorted[b - 1].at;
      assert b < j ==> r[b] == sorted[b];
      assert a > j ==> r[a] == sorted[a - 1];
    }
  }

  lemma InsertCounts(sorted: seq<Charge>, j: nat, c: Charge)
    requires j <= |sorted|
    ensures multiset(sorted[..j] + [c] + sorted[j..]) == multiset(sorted) + multiset{c}
  {
    assert sorted == sorted[..j] + sorted[j..];
  }

  /** One charge put in its place. */
  method InsertByTime(sorted: seq<Charge>, c: Charge) returns (r: seq<Charge>)
    requires SortedByTime(sorted)
    ensures SortedByTime(r) && multiset(r) == multiset(sorted) + multiset{c}
  {
    hide SortedByTime;
    var j := |sorted|;
    while j > 0 && sorted[j - 1].at > c.at
      invariant 0 <= j <= |sorted| && (j < |sorted| ==> sorted[j].at > c.at)
    {
      j := j - 1;
    }
    InsertSorted(sorted, j, c);
    InsertCounts(sorted, j, c);
    r := sorted[..j] + [c] + sorted[j..];
  }

  /** Stands for the library sort; equal times may end in any order. */
  method SortByTime(charges: seq<Charge>) returns (sorted: seq<Charge>)
    ensures SortedByTime(sorted) && multiset(sorted) == multiset(charges)
  {
    sorted := [];
    assert SortedByTime(sorted);
    hide SortedByTime;
    var i := 0;
    while i < |charges|
      invariant i <= |charges| && SortedByTime(sorted) && multiset(sorted) == multiset(charges[..i])
    {
      assert charges[..i + 1] == charges[..i] + [charges[i]];
      sorted := InsertByTime(sorted, charges[i]);
      i := i + 1;
    }
    assert charges[..i] == charges;
  }

  class OpenCollectiveGateway {
    const token: string
    const projectSlug: string
    const tierSlug: string

    constructor (token: string, projectSlug: string, tierSlug: string)
      ensures this.token == token && this.projectSlug == projectSlug && this.tierSlug == tierSlug
    {
      this.token, this.projectSlug, this.tierSlug := token, projectSlug, tierSlug;
    }

    /**
     * ListPaidCharges, over a remote order list that does not change while it
     * is paged through. It succeeds exactly when it is configured, the list is
     * shorter than the page limit, no page it needs is lost and every settled
     * time is readable; its result is then complete, exact and sorted.
     */
    method ListPaidCharges(orders: seq<Order>, lost: set<nat>) returns (feed: Option<seq<Charge>>)
      ensures feed.Some? <==>
        && token != "" && projectSlug != "" && tierSlug != ""
        && |orders| < 2000
        && (forall offset :: offset in lost && offset % 100 == 0 ==> offset > |orders|)
        && AllWellTimed(orders, tierSlug)
      ensures feed.Some? ==>
        SortedByTime(feed.value) && multiset(feed.value) == multiset(Contributions(orders, tierSlug))
    {
      hide Contributions; hide AllWellTimed; hide SortedByTime;
      if token == "" || projectSlug == "" || tierSlug == "" {
        return None;
      }
      var charges: seq<Charge> := [];
      NothingListed(orders, tierSlug);
      var page, offset := 0, 0;
      while page < MAX_PAGES
        invariant page <= MAX_PAGES && offset == page * PAGE_SIZE && offset <= |orders|
        invariant forall o :: o in lost && o % PAGE_SIZE == 0 ==> o >= offset
        invariant AllWellTimed(orders[..offset], tierSlug) && charges == Contributions(orders[..offset], tierSlug)
      {
        var batch := FetchPage(orders, offset, lost);
        if batch.None? {
          return None;
        }
        var nodes := batch.value;
        assert nodes == orders[offset..offset + |nodes|];
        var ok;
        charges, ok := AddPage(orders, offset, nodes, charges);
        if !ok {
          return None;
        }
        if |nodes| < PAGE_SIZE {
          assert orders[..offset + |nodes|] == orders;
          var sorted := SortByTime(charges);
          return Some(sorted);
        }
        page, offset := page + 1, offset + PAGE_SIZE;
      }
      return None;
    }

    /** The loop over one page of orders. */
    method AddPage(ghost orders: seq<Order>, ghost start: nat, nodes: seq<Order>, before: seq<Charge>)
        returns (charges: seq<Charge>, ok: bool)
      requires start + |nodes| <= |orders| && nodes == orders[start..start + |nodes|]
      requires before == Contributions(orders[..start], tierSlug) && AllWellTimed(orders[..start], tierSlug)
      ensures ok ==>
          charges == Contributions(orders[..start + |nodes|], tierSlug) &&
              AllWellTimed(orders[..start + |nodes|], tierSlug)
      ensures !ok ==> !AllWellTimed(orders, tierSlug)
    {
      hide Contributions; hide AllWellTimed; hide WellTimed;
      charges := before;
      assert orders[..start + 0] == orders[..start];
      var i := 0;
      while i < |nodes|
        invariant i <= |nodes|
        invariant charges == Contributions(orders[..start + i], tierSlug) && AllWellTimed(orders[..start + i], tierSlug)
      {
        var order := nodes[i];
        assert order == orders[start + i];
        ContributionsStep(orders, start + i + 1, tierSlug);
        i := i + 1;
        if order.tier.None? || order.tier.value != tierSlug || order.frequency != "MONTHLY" || order.publicId == "" {
          assert !Creditable(order, tierSlug);
          WellTimedMore(orders, start + i, tierSlug);
          continue;
        }
        var tag, single := SingleMailboxTag(order.tags);
        if !single {
          assert !Creditable(order, tierSlug);
          WellTimedMore(orders, start + i, tierSlug);
          continue;
        }
        var more;
        more, ok := AddOrder(tag, order);
        if !ok {
          NotAllWellTimed(orders, start + i - 1, tierSlug);
          return;
        }
        charges := charges + more;
        WellTimedMore(orders, start + i, tierSlug);
      }
      ok := true;
    }

    /** The loop over the transactions of one order. */
    method AddOrder(tag: string, order: Order) returns (charges: seq<Charge>, ok: bool)
      ensures ok <==> WellTimed(order)
      ensures ok ==> charges == ChargesOf(tag, order.transactions)
    {
      charges := [];
      var i := 0;
      while i < |order.transactions|
        invariant i <= |order.transactions| && charges == ChargesOf(tag, order.transactions[..i])
        invariant forall j :: 0 <= j < i && SettledTransaction(order.transactions[j]) ==>
            order.transactions[j].createdAt.Some?
      {
        var t := order.transactions[i];
        assert order.transactions[..i + 1][..i] == order.transactions[..i];
        i := i + 1;
        if t.direction != "CREDIT" || t.kind != "CONTRIBUTION" || t.isRefunded.None? || t.isRefunded.value ||
            t.publicId == "" {
          continue;
        }
        if t.createdAt.None? {
          return [], false;
        }
        charges := charges + [Charge(tag, t.publicId, t.createdAt.value)];
      }
      assert order.transactions[..i] == order.transactions;
      ok := true;
    }
  }

  lemma NothingListed(orders: seq<Order>, tier: string)
    ensures Contributions(orders[..0], tier) == [] && AllWellTimed(orders[..0], tier)
  {
  }

  lemma ContributionsStep(orders: seq<Order>, n: nat, tier: string)
    requires 0 < n <= |orders|
    ensures Contributions(orders[..n], tier) ==
            Contributions(orders[..n - 1], tier)
              + (if Creditable(orders[n - 1], tier)
                 then ChargesOf(CheckoutTags(orders[n - 1].tags)[0], orders[n - 1].transactions) else [])
  {
    assert orders[..n][..n - 1] == orders[..n - 1];
  }

  lemma NotAllWellTimed(orders: seq<Order>, i: nat, tier: string)
    requires i < |orders| && Creditable(orders[i], tier) && !WellTimed(orders[i])
    ensures !AllWellTimed(orders, tier)
  {
  }

  lemma WellTimedMore(orders: seq<Order>, n: nat, tier: string)
    requires 0 < n <= |orders| && AllWellTimed(orders[..n - 1], tier)
    requires Creditable(orders[n - 1], tier) ==> WellTimed(orders[n - 1])
    ensures AllWellTimed(orders[..n], tier)
  {
    forall i | 0 <= i < n && Creditable(orders[..n][i], tier) ensures WellTimed(orders[..n][i]) {
      if i < n - 1 {
        assert orders[..n][i] == orders[..n - 1][i];
      }
    }
  }

  // ---------- the feed, written out ----------

  /** The tag of an order: the one tag with the prefix, among tags of which no other has it. */
  predicate OnlyTag(tags: seq<string>, tag: string) {
    exists n :: 0 <= n < |tags| && tags[n] == tag && "tva-" <= tag &&
      forall m :: 0 <= m < |tags| && m != n ==> !("tva-" <= tags[m])
  }

  lemma {:induction false} TagsOf(tags: seq<string>)
    ensures CheckoutTags(tags) == [] <==> forall n :: 0 <= n < |tags| ==> !("tva-" <= tags[n])
    ensures forall tag :: CheckoutTags(tags) == [tag] <==> OnlyTag(tags, tag)
    decreases |tags|
  {
    hide OnlyTag; hide CheckoutTags;
    if tags == [] {
      NoTag();
    } else {
      var n := |tags| - 1;
      TagsOf(tags[..n]);
      forall tag ensures CheckoutTags(tags) == [tag] <==> OnlyTag(tags, tag) {
        OneMoreTag(tags, tag);
        LastTag(tags, tag);
      }
      LastTag(tags, "");
    }
  }

  lemma NoTag()
    ensures CheckoutTags([]) == [] && forall tag :: !OnlyTag([], tag)
  {
  }

  lemma LastTag(tags: seq<string>, tag: string)
    requires tags != []
    ensures var front, last := CheckoutTags(tags[..|tags| - 1]), tags[|tags| - 1];
            && (CheckoutTags(tags) == [] <==> front == [] && !("tva-" <= last))
            && (CheckoutTags(tags) == [tag] <==> if "tva-" <= last then front == [] && last == tag else front == [tag])
  {
    hide CheckoutTags;
    CheckoutTagsStep(tags, |tags| - 1);
    assert tags[..|tags|] == tags;
    var front, last := CheckoutTags(tags[..|tags| - 1]), tags[|tags| - 1];
    assert |front + [last]| == |front| + 1 && (front + [last])[|front|] == last;
  }

  lemma OneMoreTag(tags: seq<string>, tag: string)
    requires tags != []
    ensures var front, last := tags[..|tags| - 1], tags[|tags| - 1];
            OnlyTag(tags, tag) <==>
              if "tva-" <= last then tag == last && forall n :: 0 <= n < |front| ==> !("tva-" <= front[n])
              else OnlyTag(front, tag)
  {
    var front, last := tags[..|tags| - 1], tags[|tags| - 1];
    if OnlyTag(tags, tag) {
      var n :| 0 <= n < |tags| && tags[n] == tag && "tva-" <= tag &&
               forall m :: 0 <= m < |tags| && m != n ==> !("tva-" <= tags[m]);
      if n < |front| {
        assert front[n] == tag;
      }
    }
    if OnlyTag(front, tag) && !("tva-" <= last) {
      var n :| 0 <= n < |front| && front[n] == tag && "tva-" <= tag &&
               forall m :: 0 <= m < |front| && m != n ==> !("tva-" <= front[m]);
      assert tags[n] == tag;
    }
    if "tva-" <= last && tag == last && forall n :: 0 <= n < |front| ==> !("tva-" <= front[n]) {
      assert tags[|front|] == tag;
      assert forall m :: 0 <= m < |tags| && m != |front| ==> tags[m] == front[m];
    }
  }

  /** The transaction is settled, and charged as `c`. */
  predicate ChargedAs(t: Transaction, c: Charge) {
    && t.direction == "CREDIT" && t.kind == "CONTRIBUTION" && t.isRefunded == Some(false)
    && t.publicId == c.chargeId != "" && t.createdAt == Some(c.at)
  }

  lemma {:induction false} ChargesExactly(tag: string, transactions: seq<Transaction>, c: Charge)
    ensures c in ChargesOf(tag, transactions) <==>
              c.tag == tag && exists j :: 0 <= j < |transactions| && ChargedAs(transactions[j], c)
    decreases |transactions|
  {
    if transactions != [] {
      var n := |transactions| - 1;
      ChargesExactly(tag, transactions[..n], c);
      assert transactions == transactions[..n] + [transactions[n]];
    }
  }

  /** Order i is monthly, on the tier, and carries the tag alone. */
  predicate OrderFor(orders: seq<Order>, tier: string, i: int, tag: string) {
    && 0 <= i < |orders| && orders[i].tier == Some(tier) && orders[i].frequency == "MONTHLY"
    && orders[i].publicId != "" && OnlyTag(orders[i].tags, tag)
  }

  lemma CreditableTag(order: Order, tier: string, tag: string)
    ensures Creditable(order, tier) && CheckoutTags(order.tags) == [tag] <==> OrderFor([order], tier, 0, tag)
  {
    hide OnlyTag;
    TagsOf(order.tags);
  }

  /**
   * The contributions are exactly the settled transactions of the monthly
   * orders on the tier that carry one checkout tag and no second.
   */
  lemma {:induction false} ContributionsExactly(orders: seq<Order>, tier: string, c: Charge)
    ensures c in Contributions(orders, tier) <==>
              exists i, j :: OrderFor(orders, tier, i, c.tag) && 0 <= j < |orders[i].transactions|
                && ChargedAs(orders[i].transactions[j], c)
    decreases |orders|
  {
    hide OnlyTag; hide ChargedAs; hide Creditable; hide CheckoutTags; hide ChargesOf;
    if orders != [] {
      var n := |orders| - 1;
      var front, order := orders[..n], orders[n];
      ContributionsExactly(front, tier, c);
      assert forall i :: 0 <= i < n ==> front[i] == orders[i];
      CreditableTag(order, tier, c.tag);
      if Creditable(order, tier) {
        OneTag(order, tier);
        ChargesExactly(CheckoutTags(order.tags)[0], order.transactions, c);
      }
      if c in Contributions(front, tier) {
        var i, j :| OrderFor(front, tier, i, c.tag) && 0 <= j < |front[i].transactions| &&
                    ChargedAs(front[i].transactions[j], c);
        assert OrderFor(orders, tier, i, c.tag) && ChargedAs(orders[i].transactions[j], c);
      } else if c in Contributions(orders, tier) {
        var j :| 0 <= j < |order.transactions| && ChargedAs(order.transactions[j], c);
        assert OrderFor(orders, tier, n, c.tag) && ChargedAs(orders[n].transactions[j], c);
      } else {
        forall i, j | OrderFor(orders, tier, i, c.tag) && 0 <= j < |orders[i].transactions|
          ensures !ChargedAs(orders[i].transactions[j], c)
        {
          if i < n {
            assert OrderFor(front, tier, i, c.tag);
          }
        }
      }
    }
  }

  lemma OneTag(order: Order, tier: string)
    requires Creditable(order, tier)
    ensures |CheckoutTags(order.tags)| == 1 && CheckoutTags(order.tags) == [CheckoutTags(order.tags)[0]]
  {
  }

  /** The feed is refused for exactly one thing in the orders: a settled contribution without a readable time. */
  lemma TimedExactly(orders: seq<Order>, tier: string)
    ensures AllWellTimed(orders, tier) <==>
              forall i, j, tag ::
                OrderFor(orders, tier, i, tag) && 0 <= j < |orders[i].transactions| &&
                orders[i].transactions[j].direction == "CREDIT" && orders[i].transactions[j].kind == "CONTRIBUTION" &&
                orders[i].transactions[j].isRefunded == Some(false) && orders[i].transactions[j].publicId != "" ==>
                  orders[i].transactions[j].createdAt.Some?
  {
    hide OnlyTag; hide CheckoutTags; hide Creditable;
    forall i, tag | 0 <= i < |orders|
      ensures Creditable(orders[i], tier) && CheckoutTags(orders[i].tags) == [tag] <==> OrderFor(orders, tier, i, tag)
    {
      CreditableTag(orders[i], tier, tag);
    }
    forall i | 0 <= i < |orders| && Creditable(orders[i], tier) ensures exists tag :: OrderFor(orders, tier, i, tag) {
      OneTag(orders[i], tier);
      assert OrderFor(orders, tier, i, CheckoutTags(orders[i].tags)[0]);
    }
  }

  // ---------- the feed and the poll ----------

  lemma {:induction false} ChargesTagged(tag: string, transactions: seq<Transaction>, c: Charge)
    requires c in ChargesOf(tag, transactions)
    ensures c.tag == tag && c.chargeId != ""
    decreases |transactions|
  {
    if transactions != [] && c in ChargesOf(tag, transactions[..|transactions| - 1]) {
      ChargesTagged(tag, transactions[..|transactions| - 1], c);
    }
  }

  /** Every charge of the feed names a checkout and has an ID. */
  lemma {:induction false} ContributionsTagged(orders: seq<Order>, tier: string, c: Charge)
    requires c in Contributions(orders, tier)
    ensures HasTagPrefix(c.tag) && c.chargeId != ""
    decreases |orders|
  {
    if orders != [] {
      var n := |orders| - 1;
      if c in Contributions(orders[..n], tier) {
        ContributionsTagged(orders[..n], tier, c);
      } else {
        ChargesTagged(CheckoutTags(orders[n].tags)[0], orders[n].transactions, c);
      }
    }
  }

  /** No two charges of one checkout carry the same time. */
  ghost predicate NoTies(charges: seq<Charge>) {
    forall i, j :: 0 <= i < j < |charges| && charges[i].tag == charges[j].tag ==> charges[i].at != charges[j].at
  }

  ghost predicate Rising(charges: seq<Charge>) {
    forall i, j :: 0 <= i < j < |charges| ==> charges[i].at < charges[j].at
  }

  /** `fuller` has all charges of `feed`, and new ones of a checkout only after all its old ones. */
  ghost predicate GrowsLater(feed: seq<Charge>, fuller: seq<Charge>) {
    && (forall c :: c in feed ==> c in fuller)
    && (forall c, d :: c in feed && d in fuller && d !in feed && c.tag == d.tag ==> c.at < d.at)
  }

  lemma {:induction false} TaggedMembers(charges: seq<Charge>, tag: string)
    ensures forall c :: c in Tagged(charges, tag) <==> c in charges && c.tag == tag
    decreases |charges|
  {
    if charges != [] {
      var n := |charges| - 1;
      TaggedMembers(charges[..n], tag);
      assert charges == charges[..n] + [charges[n]];
    }
  }

  lemma {:induction false} TaggedRising(charges: seq<Charge>, tag: string)
    requires SortedByTime(charges) && NoTies(charges)
    ensures Rising(Tagged(charges, tag))
    decreases |charges|
  {
    if charges != [] {
      var n := |charges| - 1;
      TaggedRising(charges[..n], tag);
      TaggedMembers(charges[..n], tag);
      if charges[n].tag == tag {
        forall c | c in Tagged(charges[..n], tag) ensures c.at < charges[n].at {
          var i :| 0 <= i < n && charges[i] == c;
        }
      }
    }
  }

  /** `b` holds `a`, and what else it holds is later. */
  ghost predicate HoldsFirst(a: seq<Charge>, b: seq<Charge>) {
    && (forall c :: c in a ==> c in b)
    && (forall c, d :: c in a && d in b && d !in a ==> c.at < d.at)
  }

  lemma RisingHead(a: seq<Charge>, b: seq<Charge>)
    requires a != [] && Rising(a) && Rising(b) && HoldsFirst(a, b)
    ensures b != [] && a[0] == b[0]
  {
    assert a[0] in b;
    var i :| 0 <= i < |b| && b[i] == a[0];
    assert b[0].at <= a[0].at && b[0] in b;
    assert b[0] in a;
    var j :| 0 <= j < |a| && a[j] == b[0];
  }

  lemma RisingTail(a: seq<Charge>, b: seq<Charge>)
    requires a != [] && b != [] && Rising(a) && Rising(b) && a[0] == b[0]
    requires HoldsFirst(a, b)
    ensures Rising(a[1..]) && Rising(b[1..]) && HoldsFirst(a[1..], b[1..])
  {
    RisingRest(a);
    RisingRest(b);
    assert a == [a[0]] + a[1..] && b == [b[0]] + b[1..];
  }

  lemma RisingRest(s: seq<Charge>)
    requires s != [] && Rising(s)
    ensures Rising(s[1..]) && forall c :: c in s[1..] ==> s[0].at < c.at
  {
  }

  /** A rising list is a prefix of a rising list that holds it and is otherwise later. */
  lemma {:induction false} RisingPrefix(a: seq<Charge>, b: seq<Charge>)
    requires Rising(a) && Rising(b) && HoldsFirst(a, b)
    ensures a <= b
    decreases |a|
  {
    hide Rising; hide HoldsFirst;
    if a != [] {
      RisingHead(a, b);
      RisingTail(a, b);
      RisingPrefix(a[1..], b[1..]);
      assert a == [a[0]] + a[1..] && b == [b[0]] + b[1..];
    }
  }

  /**
   * The input contract of the poll: between two sorted feeds, of which the
   * later has only later charges for each checkout, the earlier shows, per
   * checkout, the first of the charges of the later.
   */
  lemma GrowingFeedShowsPart(feed: seq<Charge>, fuller: seq<Charge>)
    requires SortedByTime(feed) && SortedByTime(fuller) && NoTies(feed) && NoTies(fuller)
    requires GrowsLater(feed, fuller)
    ensures ShowsPartOf(feed, fuller)
  {
    forall tag: string ensures Tagged(feed, tag) <= Tagged(fuller, tag) {
      TaggedMembers(feed, tag);
      TaggedMembers(fuller, tag);
      TaggedRising(feed, tag);
      TaggedRising(fuller, tag);
      RisingPrefix(Tagged(feed, tag), Tagged(fuller, tag));
    }
  }

  /**
   * A complete feed and a successful poll leave no settled contribution
   * behind: each is at or before the payment cursor of the row that recorded
   * its checkout, unless no row did.
   */
  lemma NoContributionLeft(st: State, orders: seq<Order>, tier: string, feed: seq<Charge>, faults: Faults, c: Charge)
    requires !st.freeMode && multiset(feed) == multiset(Contributions(orders, tier))
    requires Poll(st, Some(feed), faults).ok && c in Contributions(orders, tier)
    ensures var after := Replay(st, Poll(st, Some(feed), faults).effects);
            match Find(after.rows, BySession(c.tag))
            case None => true
            case Some(k) => after.rows[k].lastChargedAt.Some? && c.at <= after.rows[k].lastChargedAt.value
  {
    hide PollPrefix;
    ContributionsTagged(orders, tier, c);
    assert c in multiset(feed);
    assert feed[..|feed|] == feed;
    PollSkips(st, feed, |feed|, faults, c);
  }
}
