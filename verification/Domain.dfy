/** The records of the mail service, and the queries and unique indexes of the mailboxes table. */
module Domain {
  import opened Calendar

  datatype Option<+T> = None | Some(value: T)
  {
    function GetOr(default: T): T {
      if Some? then value else default
    }
  }

  datatype Status = PendingPayment | Active | Expired

  datatype Mailbox = Mailbox(
    id: string,
    accountId: string,           // "" for a key-bound mailbox
    fingerprint: string,
    login: string,
    accessToken: string,
    session: string,             // payment session, or the tva- tag of an Open Collective checkout
    paymentUrl: string,
    lastChargeId: string,        // with lastChargedAt, the payment cursor
    lastChargedAt: Option<Time>,
    tokenHash: string,
    tokenExpiresAt: Option<Time>,
    status: Status,
    grantedMonths: int,
    couponUsed: bool,
    paidAt: Option<Time>,
    expiresAt: Option<Time>)
  {
    predicate KeyBound() {
      accountId == ""
    }
  }

  /** After(t, now) of an optional instant; a missing one is never after anything. */
  predicate After(t: Option<Time>, now: Time) {
    t.Some? && t.value > now
  }

  predicate Usable(m: Mailbox, now: Time) {
    m.status == Active && m.paidAt.Some? && (m.expiresAt.Some? ==> m.expiresAt.value > now)
  }

  /** A settled charge, attributed to a checkout by its tag. */
  datatype Charge = Charge(tag: string, chargeId: string, at: Time)

  const TAG_PREFIX := "tva-"

  predicate HasTagPrefix(s: string) {
    TAG_PREFIX <= s
  }

  /** Stands for the truncated hash of the mailbox ID, which is taken to be injective. */
  function CheckoutTag(id: string): (tag: string)
    ensures HasTagPrefix(tag)
  {
    TAG_PREFIX + id
  }

  function Later(t: Time, other: Option<Time>): (r: Time)
    ensures r >= t
    ensures other.Some? ==> r >= other.value
    ensures r == t || other == Some(r)
  {
    if other.Some? && other.value > t then other.value else t
  }

  /** The lookups of the mailbox repository. */
  datatype Key =
    | ById(id: string)
    | BySession(session: string)
    | ByFingerprint(fingerprint: string)
    | ByTokenHash(hash: string)
    | ByAccessToken(token: string)
    | PendingOf(account: string)

  predicate Matches(m: Mailbox, key: Key) {
    match key
    case ById(id) => m.id == id
    case BySession(session) => m.session == session
    case ByFingerprint(fingerprint) => m.fingerprint == fingerprint
    case ByTokenHash(hash) => m.tokenHash == hash
    case ByAccessToken(token) => m.accessToken == token
    case PendingOf(account) => m.accountId == account && m.status == PendingPayment
  }

  function FindFrom(rows: seq<Mailbox>, key: Key, start: nat): (r: Option<nat>)
    requires start <= |rows|
    ensures r.Some? ==> start <= r.value < |rows| && Matches(rows[r.value], key)
    ensures forall i :: start <= i < |rows| && (r.None? || i < r.value) ==> !Matches(rows[i], key)
    decreases |rows| - start
  {
    if start == |rows| then None
    else if Matches(rows[start], key) then Some(start)
    else FindFrom(rows, key, start + 1)
  }

  /** The first row in table order that matches. */
  function Find(rows: seq<Mailbox>, key: Key): (r: Option<nat>)
    ensures r.Some? ==> r.value < |rows| && Matches(rows[r.value], key)
    ensures r.None? ==> forall i :: 0 <= i < |rows| ==> !Matches(rows[i], key)
  {
    FindFrom(rows, key, 0)
  }

  /** The row lists of the mailbox repository. */
  datatype Filter = ActiveDue(now: Time) | PendingRows | ExpiredRows

  predicate Selected(m: Mailbox, filter: Filter) {
    match filter
    case ActiveDue(now) => m.status == Active && m.expiresAt.Some? && m.expiresAt.value <= now
    case PendingRows => m.status == PendingPayment
    case ExpiredRows => m.status == Expired
  }

  predicate Increasing(s: seq<nat>) {
    forall i, j :: 0 <= i < j < |s| ==> s[i] < s[j]
  }

  /** The selected rows, as their positions in the table. */
  function Select(rows: seq<Mailbox>, filter: Filter): (r: seq<nat>)
    ensures forall i :: 0 <= i < |r| ==> r[i] < |rows| && Selected(rows[r[i]], filter)
    ensures forall k: nat :: k < |rows| && Selected(rows[k], filter) ==> k in r
    ensures Increasing(r)
  {
    if rows == [] then []
    else
      var n := |rows| - 1;
      Select(rows[..n], filter) + (if Selected(rows[n], filter) then [n] else [])
  }

  /** What is listed: pending rows, expired rows, and the active rows at or past their expiry. */
  lemma ListedExactly(rows: seq<Mailbox>, now: Time, k: nat)
    requires k < |rows|
    ensures k in Select(rows, PendingRows) <==> rows[k].status == PendingPayment
    ensures k in Select(rows, ExpiredRows) <==> rows[k].status == Expired
    ensures k in Select(rows, ActiveDue(now)) <==>
              rows[k].status == Active && rows[k].expiresAt.Some? && rows[k].expiresAt.value <= now
  {
    hide Select;
  }

  /** The unique indexes of the mailboxes table, for one pair of rows. */
  predicate Distinct(a: Mailbox, b: Mailbox) {
    && a.id != b.id
    && a.login != b.login
    && a.accessToken != b.accessToken
    && (a.fingerprint == "" || a.fingerprint != b.fingerprint)
    && (a.session == "" || a.session != b.session)
  }

  predicate UniqueRows(rows: seq<Mailbox>) {
    forall i, j :: 0 <= i < |rows| && 0 <= j < |rows| && i != j ==> Distinct(rows[i], rows[j])
  }

  /** A lookup by a unique column finds the one row that has the value. */
  lemma FindUnique(rows: seq<Mailbox>, key: Key, k: nat)
    requires UniqueRows(rows)
    requires k < |rows| && Matches(rows[k], key)
    requires key.ById? || key.ByAccessToken? || (key.BySession? && key.session != "") ||
        (key.ByFingerprint? && key.fingerprint != "")
    ensures Find(rows, key) == Some(k)
  {
    var r := Find(rows, key).value;
    assert !Distinct(rows[r], rows[k]);
  }
}
