/** API, refresh and recovery tokens of accounts. */
module Accounts {
  import opened Calendar
  import opened Domain

  const RECOVERY_TTL: int := 600_000_000_000
  const RECOVERY_WINDOW: int := 60_000_000_000
  const REFRESH_TTL: int := 2_592_000_000_000_000

  datatype Account = Account(email: string, apiToken: string)
  datatype Refresh = Refresh(account: string, expiresAt: Time, used: bool)
  datatype Recovery = Recovery(account: string, expiresAt: Time, createdAt: Time, used: bool)

  /** Tokens stand for their hashes; API tokens and refresh tokens are unique columns. */
  datatype Store = Store(
    accounts: map<string, Account>,
    refresh: map<string, Refresh>,
    recoveries: map<string, Recovery>)

  /** `ports` is how many writes, closing reads and closing mails go through before one fails. */
  datatype Op =
    | Create(id: string, email: string, now: Time, api: string, token: string, ports: nat)
    | RefreshAccess(used: string, now: Time, api: string, token: string, ports: nat)
    | StartRecovery(email: string, now: Time, code: string, ports: nat)
    | CompleteRecovery(code: string, now: Time, api: string, token: string, ports: nat)

  /** What a call handed out: its own token spent, if it spends one, and the new pair issued. */
  datatype Event = Issued(op: Op, account: string)

  // ---------- single ports ----------

  predicate ApiTokenFree(s: Store, id: string, api: string) {
    forall a :: a in s.accounts && a != id ==> s.accounts[a].apiToken != api
  }

  function MarkRefreshUsed(s: Store, token: string): Store
    requires token in s.refresh
  {
    s.(refresh := s.refresh[token := s.refresh[token].(used := true)])
  }

  function MarkRecoveryUsed(s: Store, code: string): Store
    requires code in s.recoveries
  {
    s.(recoveries := s.recoveries[code := s.recoveries[code].(used := true)])
  }

  function SetApiToken(s: Store, id: string, api: string): Store {
    if id in s.accounts then s.(accounts := s.accounts[id := s.accounts[id].(apiToken := api)]) else s
  }

  function AddRefresh(s: Store, id: string, token: string, now: Time): Store {
    s.(refresh := s.refresh[token := Refresh(id, now + REFRESH_TTL, false)])
  }

  /** DeleteActiveByAccountID */
  function DropActive(s: Store, id: string): Store {
    s.(recoveries := map c | c in s.recoveries &&
        (s.recoveries[c].account != id || s.recoveries[c].used) :: s.recoveries[c])
  }

  // ---------- the calls ----------

  /**
   * The store after a call, and what it returned. The call ends at the first
   * port that fails or database row that clashes.
   */
  datatype Outcome = Outcome(store: Store, issued: Option<Event>)

  /** issueRefreshToken */
  function IssueRefresh(s: Store, op: Op, id: string, ports: nat): Outcome
    requires !op.StartRecovery?
  {
    if ports < 1 || op.token in s.refresh then Outcome(s, None)
    else Outcome(AddRefresh(s, id, op.token, op.now), Some(Issued(op, id)))
  }

  /** The end of an exchange: new API token, new refresh token, and the account read back. */
  function Exchange(s: Store, op: Op, id: string, ports: nat): Outcome
    requires !op.StartRecovery?
  {
    if ports < 1 || !ApiTokenFree(s, id, op.api) then Outcome(s, None)
    else
      var o := IssueRefresh(SetApiToken(s, id, op.api), op, id, ports - 1);
      if ports < 3 || id !in s.accounts then o.(issued := None) else o
  }

  predicate EmailTaken(s: Store, email: string) {
    exists a :: a in s.accounts && s.accounts[a].email == email
  }

  ghost function OwnerOf(s: Store, email: string): (a: string)
    requires EmailTaken(s, email)
    ensures a in s.accounts && s.accounts[a].email == email
  {
    var a :| a in s.accounts && s.accounts[a].email == email; a
  }

  /** The token a call was given is stored, unspent and not past its end. */
  predicate Redeemable(s: Store, op: Op) {
    match op
    case RefreshAccess(used, now, _, _, _) =>
      used != "" && used in s.refresh && !s.refresh[used].used && now <= s.refresh[used].expiresAt
    case CompleteRecovery(code, now, _, _, _) =>
      code != "" && code in s.recoveries && !s.recoveries[code].used && now <= s.recoveries[code].expiresAt
    case _ => false
  }

  /** The call passes its guards and its first write: the account is added, or the old token marked used. */
  predicate Opens(s: Store, op: Op)
    requires !op.StartRecovery?
  {
    op.ports >= 1 &&
    match op
    case Create(id, email, _, api, _, _) => '@' in email && !EmailTaken(s, email) && id !in s.accounts &&
        ApiTokenFree(s, id, api)
    case _ => Redeemable(s, op)
  }

  function Opened(s: Store, op: Op): Store
    requires !op.StartRecovery? && Opens(s, op)
  {
    match op
    case Create(id, email, _, api, _, _) => s.(accounts := s.accounts[id := Account(email, api)])
    case RefreshAccess(used, _, _, _, _) => MarkRefreshUsed(s, used)
    case CompleteRecovery(code, _, _, _, _) => MarkRecoveryUsed(s, code)
  }

  /** The account the call is about. */
  function Owner(s: Store, op: Op): string
    requires !op.StartRecovery? && Opens(s, op)
  {
    match op
    case Create(id, _, _, _, _, _) => id
    case RefreshAccess(used, _, _, _, _) => s.refresh[used].account
    case CompleteRecovery(code, _, _, _, _) => s.recoveries[code].account
  }

  ghost function Exec(s: Store, op: Op): Outcome {
    if op.StartRecovery? then
      Outcome(if '@' in op.email && EmailTaken(s, op.email)
              then BeginRecovery(s, OwnerOf(s, op.email), op.now, op.code, op.ports) else s, None)
    else if !Opens(s, op) then Outcome(s, None)
    else if op.Create? then IssueRefresh(Opened(s, op), op, Owner(s, op), op.ports - 1)
    else Exchange(Opened(s, op), op, Owner(s, op), op.ports - 1)
  }

  /** Addresses are unique, so it does not matter which account is found. */
  lemma OneOwner(s: Store, email: string, id: string)
    requires Sound(s) && id in s.accounts && s.accounts[id].email == email
    ensures EmailTaken(s, email) && OwnerOf(s, email) == id
  {
  }

  /** The latest recovery of the account is younger than a minute: some recovery of it is. */
  predicate Limited(s: Store, id: string, now: Time) {
    exists c :: c in s.recoveries && s.recoveries[c].account == id && now - s.recoveries[c].createdAt < RECOVERY_WINDOW
  }

  function BeginRecovery(s: Store, id: string, now: Time, code: string, ports: nat): Store {
    if Limited(s, id, now) then s else SendCode(s, id, now, code, ports)
  }

  /** createAndSendRecoveryCode */
  function SendCode(s: Store, id: string, now: Time, code: string, ports: nat): Store {
    if ports < 1 then s
    else
      var s1 := DropActive(s, id);
      if ports < 2 || code in s1.recoveries then s1
      else s1.(recoveries := s1.recoveries[code := Recovery(id, now + RECOVERY_TTL, now, false)])
  }

  /** What StartRecovery tells its caller; nothing about e-mail addresses without an account. */
  datatype RecoveryAnswer = Ignored | TooSoon | Failed | CodeSent

  ghost function StartAnswer(s: Store, op: Op): RecoveryAnswer
    requires op.StartRecovery?
  {
    if '@' !in op.email || !EmailTaken(s, op.email) then Ignored
    else if Limited(s, OwnerOf(s, op.email), op.now) then TooSoon
    else if op.ports < 3 || op.code in DropActive(s, OwnerOf(s, op.email)).recoveries then Failed
    else CodeSent
  }

  // ---------- runs ----------

  datatype History = History(store: Store, events: seq<Event>)

  ghost function Run(s: Store, ops: seq<Op>): History
    decreases |ops|
  {
    if ops == [] then History(s, [])
    else
      var before := Run(s, ops[..|ops| - 1]);
      var last := Exec(before.store, ops[|ops| - 1]);
      History(last.store, before.events + (if last.issued.Some? then [last.issued.value] else []))
  }

  const EMPTY := Store(map[], map[], map[])

  function Unused(s: Store, a: string): set<string> {
    set t | t in s.refresh && s.refresh[t].account == a && !s.refresh[t].used
  }

  function UsedCodes(s: Store, a: string): set<string> {
    set c | c in s.recoveries && s.recoveries[c].account == a && s.recoveries[c].used
  }

  /** The spent token of an exchange, with its kind. */
  datatype Spent = RefreshToken(token: string) | RecoveryCode(code: string) | Nothing

  function SpentBy(e: Event): Spent {
    match e.op
    case RefreshAccess(used, _, _, _, _) => RefreshToken(used)
    case CompleteRecovery(code, _, _, _, _) => RecoveryCode(code)
    case _ => Nothing
  }

  predicate IsSpent(s: Store, x: Spent) {
    match x
    case RefreshToken(t) => t in s.refresh && s.refresh[t].used
    case RecoveryCode(c) => c in s.recoveries && s.recoveries[c].used
    case Nothing => true
  }

  // ---------- at most once ----------

  /** No call unspends a token; a call that issues spends one that was not spent. */
  lemma ExecSpends(s: Store, op: Op, x: Spent)
    ensures IsSpent(s, x) ==> IsSpent(Exec(s, op).store, x)
    ensures var issued := Exec(s, op).issued;
            issued.Some? && SpentBy(issued.value) != Nothing ==>
              !IsSpent(s, SpentBy(issued.value)) && IsSpent(Exec(s, op).store, SpentBy(issued.value))
  {
    hide IssueRefresh; hide Exchange; hide BeginRecovery;
    if op.StartRecovery? {
      if EmailTaken(s, op.email) {
        BeginSpends(s, OwnerOf(s, op.email), op.now, op.code, op.ports, x);
      }
    } else if Opens(s, op) {
      var mid := Opened(s, op);
      IssueSpends(mid, op, Owner(s, op), op.ports - 1, x);
      IssueSpends(mid, op, Owner(s, op), op.ports - 1, SpentBy(Issued(op, "")));
    }
  }

  lemma BeginSpends(s: Store, id: string, now: Time, code: string, ports: nat, x: Spent)
    ensures IsSpent(s, x) ==> IsSpent(BeginRecovery(s, id, now, code, ports), x)
  {
  }

  /** The end of a call spends nothing, and issues to the call itself. */
  lemma IssueSpends(s: Store, op: Op, id: string, ports: nat, x: Spent)
    requires !op.StartRecovery?
    ensures var issued, exchanged := IssueRefresh(s, op, id, ports), Exchange(s, op, id, ports);
            && (IsSpent(s, x) ==> IsSpent(issued.store, x) && IsSpent(exchanged.store, x))
            && (issued.issued.Some? ==> issued.issued.value == Issued(op, id))
            && (exchanged.issued.Some? ==> exchanged.issued.value == Issued(op, id))
  {
  }

  /** What was exchanged is spent, and was exchanged once. */
  ghost predicate SpentOnce(s: Store, events: seq<Event>) {
    && (forall i :: 0 <= i < |events| ==> IsSpent(s, SpentBy(events[i])))
    && (forall i, j :: 0 <= i < j < |events| && SpentBy(events[i]) != Nothing ==>
          SpentBy(events[i]) != SpentBy(events[j]))
  }

  lemma SpendOnceMore(s: Store, events: seq<Event>, op: Op)
    requires SpentOnce(s, events)
    ensures var last := Exec(s, op);
            SpentOnce(last.store, events + (if last.issued.Some? then [last.issued.value] else []))
  {
    hide Exec; hide IsSpent; hide SpentBy;
    forall i | 0 <= i < |events| ensures IsSpent(Exec(s, op).store, SpentBy(events[i])) {
      ExecSpends(s, op, SpentBy(events[i]));
    }
    ExecSpends(s, op, Nothing);
    var last := Exec(s, op);
    if last.issued.Some? && SpentBy(last.issued.value) == Nothing {
      NothingSpent(last.store);
    }
  }

  lemma NothingSpent(s: Store)
    ensures IsSpent(s, Nothing)
  {
  }

  /** In any run, with calls failing after any write, a refresh token or a recovery code is exchanged at most once. */
  lemma {:induction false} ExchangedAtMostOnce(s: Store, ops: seq<Op>)
    ensures SpentOnce(Run(s, ops).store, Run(s, ops).events)
    decreases |ops|
  {
    hide Exec; hide SpentOnce;
    if ops == [] {
      NoneExchanged(s);
    } else {
      var before := Run(s, ops[..|ops| - 1]);
      ExchangedAtMostOnce(s, ops[..|ops| - 1]);
      SpendOnceMore(before.store, before.events, ops[|ops| - 1]);
    }
  }

  lemma NoneExchanged(s: Store)
    ensures SpentOnce(s, [])
  {
  }

  // ---------- conservation ----------

  ghost predicate Sound(s: Store) {
    && (forall t :: t in s.refresh ==> s.refresh[t].account in s.accounts)
    && (forall c :: c in s.recoveries ==> s.recoveries[c].account in s.accounts)
    && (forall a, b :: a in s.accounts && b in s.accounts && a != b ==>
          s.accounts[a].apiToken != s.accounts[b].apiToken)
    && (forall a, b :: a in s.accounts && b in s.accounts && a != b ==> s.accounts[a].email != s.accounts[b].email)
  }

  lemma IssueRefreshSound(s: Store, op: Op, id: string, ports: nat)
    requires !op.StartRecovery? && Sound(s) && id in s.accounts
    ensures Sound(IssueRefresh(s, op, id, ports).store)
  {
  }

  lemma SetApiTokenSound(s: Store, id: string, api: string)
    requires Sound(s) && ApiTokenFree(s, id, api)
    ensures Sound(SetApiToken(s, id, api))
  {
  }

  lemma IssueSound(s: Store, op: Op, id: string, ports: nat)
    requires !op.StartRecovery? && Sound(s) && id in s.accounts
    ensures Sound(IssueRefresh(s, op, id, ports).store)
    ensures Sound(Exchange(s, op, id, ports).store)
  {
    hide Sound; hide IssueRefresh;
    IssueRefreshSound(s, op, id, ports);
    if ports >= 1 && ApiTokenFree(s, id, op.api) {
      SetApiTokenSound(s, id, op.api);
      IssueRefreshSound(SetApiToken(s, id, op.api), op, id, ports - 1);
    }
  }

  lemma MarkSound(s: Store, token: string)
    requires Sound(s)
    ensures token in s.refresh ==> Sound(MarkRefreshUsed(s, token))
    ensures token in s.recoveries ==> Sound(MarkRecoveryUsed(s, token))
  {
  }

  lemma NewAccountSound(s: Store, id: string, account: Account)
    requires Sound(s) && id !in s.accounts && ApiTokenFree(s, id, account.apiToken) && !EmailTaken(s, account.email)
    ensures Sound(s.(accounts := s.accounts[id := account]))
  {
  }

  lemma BeginSound(s: Store, id: string, now: Time, code: string, ports: nat)
    requires Sound(s) && id in s.accounts
    ensures Sound(BeginRecovery(s, id, now, code, ports))
  {
  }

  lemma OpenedSound(s: Store, op: Op)
    requires !op.StartRecovery? && Opens(s, op) && Sound(s)
    ensures Sound(Opened(s, op)) && Owner(s, op) in Opened(s, op).accounts
  {
    match op
    case Create(id, email, _, api, _, _) => NewAccountSound(s, id, Account(email, api));
    case RefreshAccess(used, _, _, _, _) => MarkSound(s, used);
    case CompleteRecovery(code, _, _, _, _) => MarkSound(s, code);
  }

  lemma ExecSound(s: Store, op: Op)
    requires Sound(s)
    ensures Sound(Exec(s, op).store)
  {
    hide IssueRefresh; hide Exchange; hide BeginRecovery; hide Opens; hide Opened; hide Owner; hide Sound;
    if op.StartRecovery? {
      if EmailTaken(s, op.email) {
        BeginSound(s, OwnerOf(s, op.email), op.now, op.code, op.ports);
      }
    } else if Opens(s, op) {
      OpenedSound(s, op);
      OpensWithPort(s, op);
      IssueSound(Opened(s, op), op, Owner(s, op), op.ports - 1);
    }
  }

  lemma OpensWithPort(s: Store, op: Op)
    requires !op.StartRecovery? && Opens(s, op)
    ensures op.ports >= 1
  {
  }

  /** A call that the ports and the database let through, or that stops before its first write. */
  predicate Undisturbed(s: Store, op: Op) {
    && op.ports >= 4
    && match op
       case Create(id, _, _, api, token, _) => id !in s.accounts && Fresh(s, api, token)
       case StartRecovery(_, _, code, _) => code !in s.recoveries
       case RefreshAccess(_, _, api, token, _) => Fresh(s, api, token)
       case CompleteRecovery(_, _, api, token, _) => Fresh(s, api, token)
  }

  predicate Fresh(s: Store, api: string, token: string) {
    (forall a :: a in s.accounts ==> s.accounts[a].apiToken != api) && token !in s.refresh
  }

  /** What is owed to an account: one unused refresh token, and one more for each recovery. */
  ghost predicate Conserved(s: Store, exactly: bool) {
    forall a :: a in s.accounts ==> Balanced(s, a, exactly)
  }

  lemma MarkUnused(s: Store, token: string, a: string)
    requires token in s.refresh && !s.refresh[token].used
    ensures Unused(MarkRefreshUsed(s, token), a) == Unused(s, a) - {token}
    ensures token in Unused(s, a) <==> a == s.refresh[token].account
    ensures UsedCodes(MarkRefreshUsed(s, token), a) == UsedCodes(s, a)
  {
  }

  lemma MarkCode(s: Store, code: string, a: string)
    requires code in s.recoveries && !s.recoveries[code].used
    ensures UsedCodes(MarkRecoveryUsed(s, code), a) ==
              UsedCodes(s, a) + (if a == s.recoveries[code].account then {code} else {})
    ensures code !in UsedCodes(s, a)
    ensures Unused(MarkRecoveryUsed(s, code), a) == Unused(s, a)
  {
  }

  /** What the end of an exchange does to the counts of account a. */
  ghost predicate Grew(s: Store, after: Store, op: Op, id: string, a: string, surely: bool)
    requires !op.StartRecovery?
  {
    && UsedCodes(after, a) == UsedCodes(s, a)
    && after.accounts.Keys == s.accounts.Keys
    && ((op.token !in s.refresh && Unused(after, a) == Unused(s, a) + (if a == id then {op.token} else {}))
        || (!surely && Unused(after, a) == Unused(s, a)))
  }

  lemma IssueUnused(s: Store, op: Op, id: string, ports: nat, a: string)
    requires !op.StartRecovery? && id in s.accounts
    ensures Grew(s, IssueRefresh(s, op, id, ports).store, op, id, a, ports >= 1 && op.token !in s.refresh)
    ensures Grew(s, Exchange(s, op, id, ports).store, op, id, a,
                 ports >= 2 && op.token !in s.refresh && ApiTokenFree(s, id, op.api))
  {
    IssueRefreshUnused(s, op, id, ports, a);
    if ports >= 1 {
      var s1 := SetApiToken(s, id, op.api);
      assert Unused(s1, a) == Unused(s, a) && UsedCodes(s1, a) == UsedCodes(s, a);
      IssueRefreshUnused(s1, op, id, ports - 1, a);
    }
  }

  lemma IssueRefreshUnused(s: Store, op: Op, id: string, ports: nat, a: string)
    requires !op.StartRecovery?
    ensures Grew(s, IssueRefresh(s, op, id, ports).store, op, id, a, ports >= 1 && op.token !in s.refresh)
  {
    if ports >= 1 && op.token !in s.refresh {
      var s1 := AddRefresh(s, id, op.token, op.now);
      assert Unused(s1, a) == Unused(s, a) + (if a == id then {op.token} else {});
      assert UsedCodes(s1, a) == UsedCodes(s, a);
    }
  }

  lemma BeginKeeps(s: Store, id: string, now: Time, code: string, ports: nat, a: string)
    ensures var s' := BeginRecovery(s, id, now, code, ports);
            s'.accounts == s.accounts && Unused(s', a) == Unused(s, a) && UsedCodes(s', a) == UsedCodes(s, a)
  {
    assert UsedCodes(DropActive(s, id), a) == UsedCodes(s, a);
  }

  lemma NoTokens(s: Store, a: string)
    requires Sound(s) && a !in s.accounts
    ensures Unused(s, a) == {} && UsedCodes(s, a) == {}
  {
  }

  /** Unused refresh tokens over completed recoveries. */
  ghost function Balance(s: Store, a: string): int {
    |Unused(s, a)| - |UsedCodes(s, a)|
  }

  ghost predicate Balanced(s: Store, a: string, exactly: bool) {
    Balance(s, a) <= 1 && (exactly ==> Balance(s, a) == 1)
  }

  /** Opening a call costs its account one; a new account starts at nothing. */
  lemma OpenedBalance(s: Store, op: Op, a: string)
    requires !op.StartRecovery? && Opens(s, op) && Sound(s)
    ensures Balance(Opened(s, op), a) ==
              if a !in s.accounts then 0 else Balance(s, a) - (if a == Owner(s, op) then 1 else 0)
    ensures Opened(s, op).accounts.Keys == s.accounts.Keys + {Owner(s, op)}
  {
    hide Unused; hide UsedCodes;
    if a !in s.accounts {
      NoTokens(s, a);
    }
    match op
    case Create(id, email, _, api, _, _) =>
      AccountsDontCount(s, s.accounts[id := Account(email, api)], a);
    case RefreshAccess(used, _, _, _, _) => MarkUnused(s, used, a);
    case CompleteRecovery(code, _, _, _, _) => MarkCode(s, code, a);
  }

  lemma AccountsDontCount(s: Store, accounts: map<string, Account>, a: string)
    ensures Unused(s.(accounts := accounts), a) == Unused(s, a)
    ensures UsedCodes(s.(accounts := accounts), a) == UsedCodes(s, a)
  {
  }

  /** The end of a call gives its account one, or nothing. */
  lemma GrewBalance(s: Store, after: Store, op: Op, id: string, a: string, surely: bool)
    requires !op.StartRecovery? && Grew(s, after, op, id, a, surely)
    ensures var one := if a == id then 1 else 0;
            Balance(after, a) == Balance(s, a) + one || (!surely && Balance(after, a) == Balance(s, a))
    ensures after.accounts.Keys == s.accounts.Keys
  {
    hide Unused; hide UsedCodes;
    UnusedStored(s, a);
  }

  lemma ExecConserves(s: Store, op: Op, exactly: bool)
    requires Sound(s) && Conserved(s, exactly) && (exactly ==> Undisturbed(s, op))
    ensures Conserved(Exec(s, op).store, exactly)
  {
    hide Balanced; hide Sound; hide Undisturbed; hide Exec;
    forall a | a in Exec(s, op).store.accounts
      ensures Balanced(Exec(s, op).store, a, exactly)
    {
      if op.StartRecovery? {
        StartConserves(s, op, a, exactly);
      } else {
        IssuingConserves(s, op, a, exactly);
      }
    }
  }

  lemma StartConserves(s: Store, op: Op, a: string, exactly: bool)
    requires op.StartRecovery? && Conserved(s, exactly)
    requires a in Exec(s, op).store.accounts
    ensures Balanced(Exec(s, op).store, a, exactly)
  {
    hide Unused; hide UsedCodes; hide BeginRecovery;
    if EmailTaken(s, op.email) {
      BeginKeeps(s, OwnerOf(s, op.email), op.now, op.code, op.ports, a);
    }
  }

  lemma IssuingConserves(s: Store, op: Op, a: string, exactly: bool)
    requires !op.StartRecovery? && Sound(s) && Conserved(s, exactly) && (exactly ==> Undisturbed(s, op))
    requires a in Exec(s, op).store.accounts
    ensures Balanced(Exec(s, op).store, a, exactly)
  {
    hide IssueRefresh; hide Exchange; hide Opens; hide Opened; hide Owner; hide Sound; hide Balance;
    hide Undisturbed; hide Grew;
    if Opens(s, op) {
      var mid, id := Opened(s, op), Owner(s, op);
      OpenedSound(s, op);
      OpensWithPort(s, op);
      OpenedBalance(s, op, a);
      IssueUnused(mid, op, id, op.ports - 1, a);
      if exactly {
        UndisturbedOpened(s, op);
      }
      var surely := op.ports >= 3 && op.token !in mid.refresh && ApiTokenFree(mid, id, op.api);
      if op.Create? {
        GrewBalance(mid, IssueRefresh(mid, op, id, op.ports - 1).store, op, id, a,
                    op.ports >= 2 && op.token !in mid.refresh);
      } else {
        GrewBalance(mid, Exchange(mid, op, id, op.ports - 1).store, op, id, a, surely);
      }
    }
  }

  lemma UndisturbedOpened(s: Store, op: Op)
    requires !op.StartRecovery? && Opens(s, op) && Undisturbed(s, op)
    ensures var mid := Opened(s, op);
            op.ports >= 4 && op.token !in mid.refresh && ApiTokenFree(mid, Owner(s, op), op.api)
  {
  }

  lemma UnusedStored(s: Store, a: string)
    ensures forall t :: t in Unused(s, a) ==> t in s.refresh
  {
  }

  /** Every call of the run went through undisturbed. */
  ghost predicate Calm(s: Store, ops: seq<Op>)
    decreases |ops|
  {
    ops == [] || (Calm(s, ops[..|ops| - 1]) && Undisturbed(Run(s, ops[..|ops| - 1]).store, ops[|ops| - 1]))
  }

  /**
   * From an empty store an account never has more unused refresh tokens than
   * one and its completed recoveries, and in a run without failures it has
   * exactly that many.
   */
  lemma {:induction false} TokensConserved(ops: seq<Op>, exactly: bool)
    requires exactly ==> Calm(EMPTY, ops)
    ensures Sound(Run(EMPTY, ops).store) && Conserved(Run(EMPTY, ops).store, exactly)
    decreases |ops|
  {
    hide Exec; hide Conserved; hide Sound; hide Undisturbed;
    if ops == [] {
      EmptyConserved(exactly);
    } else {
      TokensConserved(ops[..|ops| - 1], exactly);
      var before := Run(EMPTY, ops[..|ops| - 1]).store;
      ExecSound(before, ops[|ops| - 1]);
      ExecConserves(before, ops[|ops| - 1], exactly);
    }
  }

  lemma EmptyConserved(exactly: bool)
    ensures Sound(EMPTY) && Conserved(EMPTY, exactly)
  {
  }

  // ---------- the API token issued last ----------

  function LastApi(events: seq<Event>, a: string): Option<string>
    decreases |events|
  {
    if events == [] then None
    else
      var e := events[|events| - 1];
      if e.account == a && !e.op.StartRecovery? then Some(e.op.api) else LastApi(events[..|events| - 1], a)
  }

  /** GetByAPIToken finds account a. */
  predicate Resolves(s: Store, api: string, a: string) {
    a in s.accounts && s.accounts[a].apiToken == api
  }

  lemma ExecApi(s: Store, op: Op, a: string)
    requires Sound(s) && Undisturbed(s, op) && a in Exec(s, op).store.accounts
    ensures var o := Exec(s, op);
            if o.issued.Some? && o.issued.value.account == a
            then !op.StartRecovery? && o.issued.value.op == op && o.store.accounts[a].apiToken == op.api
            else a in s.accounts && o.store.accounts[a].apiToken == s.accounts[a].apiToken
  {
    hide IssueRefresh; hide Exchange; hide BeginRecovery; hide Sound; hide Undisturbed; hide ApiTokenFree;
    if op.StartRecovery? {
      if EmailTaken(s, op.email) {
        BeginKeeps(s, OwnerOf(s, op.email), op.now, op.code, op.ports, a);
      }
    } else if Opens(s, op) {
      OpenedSound(s, op);
      UndisturbedOpened(s, op);
      IssuedApi(Opened(s, op), op, Owner(s, op), op.ports - 1, a);
    }
  }

  lemma IssuedApi(s: Store, op: Op, id: string, ports: nat, a: string)
    requires !op.StartRecovery? && id in s.accounts && ports >= 3 && op.token !in s.refresh
    requires ApiTokenFree(s, id, op.api)
    ensures var issued, exchanged := IssueRefresh(s, op, id, ports), Exchange(s, op, id, ports);
            && issued.issued == exchanged.issued == Some(Issued(op, id))
            && issued.store.accounts == s.accounts
            && exchanged.store.accounts == s.accounts[id := s.accounts[id].(apiToken := op.api)]
  {
  }

  /** In a run without failures, exactly the API token issued last resolves to an account, and to no other. */
  lemma {:induction false} LastTokenResolves(ops: seq<Op>, a: string)
    requires Calm(EMPTY, ops) && a in Run(EMPTY, ops).store.accounts
    ensures LastApi(Run(EMPTY, ops).events, a).Some?
    ensures var last := LastApi(Run(EMPTY, ops).events, a).value;
            && Resolves(Run(EMPTY, ops).store, last, a)
            && forall api, b :: Resolves(Run(EMPTY, ops).store, api, b) ==> (b == a <==> api == last)
  {
    LastTokenStored(ops, a);
    TokensConserved(ops, true);
  }

  lemma {:induction false} LastTokenStored(ops: seq<Op>, a: string)
    requires Calm(EMPTY, ops) && a in Run(EMPTY, ops).store.accounts
    ensures LastApi(Run(EMPTY, ops).events, a) == Some(Run(EMPTY, ops).store.accounts[a].apiToken)
    decreases |ops|
  {
    hide Exec; hide Undisturbed; hide Sound; hide Conserved;
    if ops != [] {
      var before := Run(EMPTY, ops[..|ops| - 1]);
      var run := Run(EMPTY, ops);
      TokensConserved(ops[..|ops| - 1], true);
      ExecApi(before.store, ops[|ops| - 1], a);
      var o := Exec(before.store, ops[|ops| - 1]);
      if o.issued.Some? {
        assert run.events[..|run.events| - 1] == before.events;
      } else {
        assert run.events == before.events;
      }
      if !(o.issued.Some? && o.issued.value.account == a) {
        LastTokenStored(ops[..|ops| - 1], a);
      }
    }
  }

  // ---------- recovery codes ----------

  /** No account has two codes that could still be used. */
  ghost predicate OneCode(s: Store) {
    forall c, d :: c in s.recoveries && d in s.recoveries && c != d ==>
      s.recoveries[c].account != s.recoveries[d].account || s.recoveries[c].used || s.recoveries[d].used
  }

  lemma ExecOneCode(s: Store, op: Op)
    requires OneCode(s)
    ensures OneCode(Exec(s, op).store)
  {
    hide OneCode; hide BeginRecovery; hide IssueRefresh; hide Exchange;
    if op.StartRecovery? {
      if Exec(s, op).store != s {
        BeginOneCode(s, OwnerOf(s, op.email), op.now, op.code, op.ports);
      }
    } else if Opens(s, op) {
      KeepsRecoveries(Opened(s, op), op, Owner(s, op), op.ports - 1);
      UsedUpOneCode(s, Exec(s, op).store, op);
    }
  }

  lemma KeepsRecoveries(s: Store, op: Op, id: string, ports: nat)
    requires !op.StartRecovery?
    ensures IssueRefresh(s, op, id, ports).store.recoveries == s.recoveries
    ensures Exchange(s, op, id, ports).store.recoveries == s.recoveries
  {
  }

  lemma UsedUpOneCode(s: Store, after: Store, op: Op)
    requires OneCode(s)
    requires after.recoveries == s.recoveries
      || (op.CompleteRecovery? && op.code in s.recoveries &&
          after.recoveries == MarkRecoveryUsed(s, op.code).recoveries)
    ensures OneCode(after)
  {
  }

  lemma BeginOneCode(s: Store, id: string, now: Time, code: string, ports: nat)
    requires OneCode(s)
    ensures OneCode(BeginRecovery(s, id, now, code, ports))
  {
    var s1 := DropActive(s, id);
    assert forall c :: c in s1.recoveries && s1.recoveries[c].account == id ==> s1.recoveries[c].used;
    assert OneCode(s1);
  }

  /** A new code takes the place of the one before it, in any run, whatever fails. */
  lemma {:induction false} OneCodeAtATime(ops: seq<Op>)
    ensures OneCode(Run(EMPTY, ops).store)
    decreases |ops|
  {
    hide Exec;
    if ops != [] {
      OneCodeAtATime(ops[..|ops| - 1]);
      ExecOneCode(Run(EMPTY, ops[..|ops| - 1]).store, ops[|ops| - 1]);
    }
  }

  /** Only an answer of CodeSent promises a code: the one usable code of the account then, for ten minutes. */
  lemma AnswerTells(s: Store, op: Op)
    requires op.StartRecovery? && OneCode(s)
    ensures var after := Exec(s, op).store;
            && (StartAnswer(s, op) == Ignored || StartAnswer(s, op) == TooSoon ==> after == s)
            && (StartAnswer(s, op) == CodeSent ==>
                  && EmailTaken(s, op.email)
                  && var id := OwnerOf(s, op.email);
                     && op.code in after.recoveries
                     && after.recoveries[op.code] == Recovery(id, op.now + RECOVERY_TTL, op.now, false)
                     && forall c :: c in after.recoveries && c != op.code ==>
                          after.recoveries[c].account != id || after.recoveries[c].used)
  {
    ExecOneCode(s, op);
  }

  /** The call stores a code for the account. */
  ghost predicate StoresCode(s: Store, op: Op, a: string) {
    var after := Exec(s, op).store;
    && op.StartRecovery? && op.code in after.recoveries && after.recoveries[op.code].account == a
    && (op.code in s.recoveries ==> s.recoveries[op.code] != after.recoveries[op.code])
  }

  /** A code of the account from `t` on is still stored, or a minute has passed since. */
  ghost predicate Remembered(s: Store, a: string, t: Time, now: Time) {
    || t + RECOVERY_WINDOW <= now
    || exists c :: c in s.recoveries && s.recoveries[c].account == a && t <= s.recoveries[c].createdAt
  }

  lemma ExecRemembers(s: Store, op: Op, a: string, t: Time, now: Time)
    requires Remembered(s, a, t, now) && now <= op.now
    ensures Remembered(Exec(s, op).store, a, t, op.now)
    ensures StoresCode(s, op, a) ==> t + RECOVERY_WINDOW <= op.now
  {
    hide IssueRefresh; hide Exchange;
    var after := Exec(s, op).store;
    if !op.StartRecovery? && Opens(s, op) {
      KeepsRecoveries(Opened(s, op), op, Owner(s, op), op.ports - 1);
    }
    if t + RECOVERY_WINDOW > op.now {
      var c :| c in s.recoveries && s.recoveries[c].account == a && t <= s.recoveries[c].createdAt;
      assert op.StartRecovery? && EmailTaken(s, op.email) && OwnerOf(s, op.email) == a ==> Limited(s, a, op.now);
      assert c in after.recoveries && after.recoveries[c].account == a && t <= after.recoveries[c].createdAt;
    }
  }

  lemma StoredIsRemembered(s: Store, op: Op, a: string)
    requires StoresCode(s, op, a)
    ensures Remembered(Exec(s, op).store, a, op.now, op.now)
  {
    var after := Exec(s, op).store;
    assert op.now <= after.recoveries[op.code].createdAt;
  }

  ghost predicate Forward(ops: seq<Op>) {
    forall i, j :: 0 <= i < j < |ops| ==> ops[i].now <= ops[j].now
  }

  lemma {:induction false} StaysRemembered(s: Store, ops: seq<Op>, i: nat, a: string)
    requires i < |ops| && Forward(ops) && StoresCode(Run(s, ops[..i]).store, ops[i], a)
    ensures Remembered(Run(s, ops).store, a, ops[i].now, ops[|ops| - 1].now)
    decreases |ops|
  {
    hide Exec; hide Remembered; hide StoresCode;
    var n := |ops| - 1;
    if i == n {
      StoredIsRemembered(Run(s, ops[..i]).store, ops[i], a);
    } else {
      assert ops[..n][..i] == ops[..i];
      StaysRemembered(s, ops[..n], i, a);
      ExecRemembers(Run(s, ops[..n]).store, ops[n], a, ops[i].now, ops[n - 1].now);
    }
  }

  /**
   * With a clock that never goes back, codes for one account are stored a minute
   * apart, even where storing one failed in between.
   */
  lemma CodesAMinuteApart(s: Store, ops: seq<Op>, i: nat, j: nat, a: string)
    requires i < j < |ops| && Forward(ops)
    requires StoresCode(Run(s, ops[..i]).store, ops[i], a) && StoresCode(Run(s, ops[..j]).store, ops[j], a)
    ensures ops[i].now + RECOVERY_WINDOW <= ops[j].now
  {
    hide Exec; hide Remembered; hide StoresCode;
    assert ops[..j][..i] == ops[..i];
    StaysRemembered(s, ops[..j], i, a);
    ExecRemembers(Run(s, ops[..j]).store, ops[j], a, ops[i].now, ops[j - 1].now);
  }

  /** Each stored code was stored for its account by a call of the run, at the time it says. */
  ghost predicate Sourced(s: Store, ops: seq<Op>) {
    forall c :: c in Run(s, ops).store.recoveries ==>
      var r := Run(s, ops).store.recoveries[c];
      exists i: nat :: i < |ops| && StoredBy(s, ops, i, r.account) && ops[i].now == r.createdAt
  }

  /** Call i of the run stored a code for the account. */
  ghost predicate StoredBy(s: Store, ops: seq<Op>, i: nat, a: string) {
    i < |ops| && StoresCode(Run(s, ops[..i]).store, ops[i], a)
  }

  /** A code that a call leaves stored was stored before, or the call stored it for its account just now. */
  lemma ExecSources(s: Store, op: Op, c: string)
    requires c in Exec(s, op).store.recoveries
    ensures var r := Exec(s, op).store.recoveries[c];
            || (StoresCode(s, op, r.account) && op.now == r.createdAt)
            || (c in s.recoveries && s.recoveries[c].account == r.account && s.recoveries[c].createdAt == r.createdAt)
  {
    hide IssueRefresh; hide Exchange;
    if !op.StartRecovery? && Opens(s, op) {
      KeepsRecoveries(Opened(s, op), op, Owner(s, op), op.ports - 1);
    }
  }

  /** The call that stored a code, in a run that goes on. */
  lemma StillStoredBy(s: Store, ops: seq<Op>, i: nat, a: string)
    requires ops != [] && StoredBy(s, ops[..|ops| - 1], i, a)
    ensures StoredBy(s, ops, i, a) && ops[..|ops| - 1][i] == ops[i]
  {
    hide Exec; hide StoresCode;
    assert ops[..|ops| - 1][..i] == ops[..i];
  }

  lemma NowStoredBy(s: Store, ops: seq<Op>, a: string)
    requires ops != [] && StoresCode(Run(s, ops[..|ops| - 1]).store, ops[|ops| - 1], a)
    ensures StoredBy(s, ops, |ops| - 1, a)
  {
  }

  lemma {:induction false} RunSources(s: Store, ops: seq<Op>)
    requires s.recoveries == map[]
    ensures Sourced(s, ops)
    decreases |ops|
  {
    hide Exec; hide StoresCode; hide StoredBy;
    if ops != [] {
      var n := |ops| - 1;
      RunSources(s, ops[..n]);
      var mid := Run(s, ops[..n]).store;
      var after := Run(s, ops).store.recoveries;
      forall c | c in after
        ensures exists i: nat :: i < |ops| && StoredBy(s, ops, i, after[c].account) && ops[i].now == after[c].createdAt
      {
        ExecSources(mid, ops[n], c);
        if StoresCode(mid, ops[n], after[c].account) && ops[n].now == after[c].createdAt {
          NowStoredBy(s, ops, after[c].account);
        } else {
          var i: nat :| i < n && StoredBy(s, ops[..n], i, after[c].account) && ops[..n][i].now == after[c].createdAt;
          StillStoredBy(s, ops, i, after[c].account);
        }
      }
    }
  }

  /** A code was stored for the account less than a minute before `now`. */
  ghost predicate StoredLately(s: Store, ops: seq<Op>, a: string, now: Time) {
    exists i: nat :: i < |ops| && StoredBy(s, ops, i, a) && now < ops[i].now + RECOVERY_WINDOW
  }

  lemma LimitedMeansStored(s: Store, ops: seq<Op>, a: string, now: Time)
    requires s.recoveries == map[] && Limited(Run(s, ops).store, a, now)
    ensures StoredLately(s, ops, a, now)
  {
    hide Run; hide StoredBy;
    RunSources(s, ops);
    var run := Run(s, ops).store;
    var c :| c in run.recoveries && run.recoveries[c].account == a &&
        now - run.recoveries[c].createdAt < RECOVERY_WINDOW;
    var i: nat :| i < |ops| && StoredBy(s, ops, i, a) && ops[i].now == run.recoveries[c].createdAt;
  }

  lemma StoredMeansLimited(s: Store, ops: seq<Op>, a: string, op: Op)
    requires Forward(ops + [op]) && StoredLately(s, ops, a, op.now)
    ensures Limited(Run(s, ops).store, a, op.now)
  {
    hide Run; hide StoresCode;
    var i: nat :| i < |ops| && StoredBy(s, ops, i, a) && op.now < ops[i].now + RECOVERY_WINDOW;
    assert forall j :: 0 <= j < |ops| ==> (ops + [op])[j] == ops[j];
    assert (ops + [op])[|ops|] == op;
    assert ops[|ops| - 1].now <= op.now;
    StaysRemembered(s, ops, i, a);
  }

  /**
   * With a clock that never goes back, and whatever failed before, a request
   * that meets no failure sends a code exactly when none was stored for the
   * account in the minute before; a request in that minute changes nothing.
   */
  lemma CodeSentExactlyWhen(s: Store, ops: seq<Op>, op: Op)
    requires s.recoveries == map[] && op.StartRecovery? && Forward(ops + [op])
    requires '@' in op.email && EmailTaken(Run(s, ops).store, op.email)
    requires op.ports >= 3 && op.code !in Run(s, ops).store.recoveries
    ensures var mid := Run(s, ops).store;
            var a := OwnerOf(mid, op.email);
            && (StartAnswer(mid, op) == CodeSent <==>
                  !exists i: nat :: i < |ops| && StoredBy(s, ops, i, a) && op.now < ops[i].now + RECOVERY_WINDOW)
            && (StartAnswer(mid, op) == CodeSent <==> StoresCode(mid, op, a))
            && (StartAnswer(mid, op) != CodeSent ==> StartAnswer(mid, op) == TooSoon && Exec(mid, op).store == mid)
  {
    hide Run; hide StoredBy; hide Forward;
    var mid := Run(s, ops).store;
    var a := OwnerOf(mid, op.email);
    if Limited(mid, a, op.now) {
      LimitedMeansStored(s, ops, a, op.now);
    }
    if StoredLately(s, ops, a, op.now) {
      StoredMeansLimited(s, ops, a, op);
    }
  }

  // ---------- exchanges ----------

  /** Without failures an exchange succeeds exactly for a redeemable token, and the pair it returns is live. */
  lemma ExchangeSucceedsIff(s: Store, op: Op)
    requires Sound(s) && Undisturbed(s, op) && (op.RefreshAccess? || op.CompleteRecovery?)
    ensures Exec(s, op).issued.Some? <==> Redeemable(s, op)
    ensures Redeemable(s, op) ==>
              var o := Exec(s, op);
              && Resolves(o.store, op.api, o.issued.value.account)
              && op.token in Unused(o.store, o.issued.value.account)
              && !Redeemable(o.store, op)
    ensures !Redeemable(s, op) ==> Exec(s, op).store == s
  {
    hide IssueRefresh; hide Exchange; hide Sound; hide ApiTokenFree;
    if Redeemable(s, op) {
      var mid, id := Opened(s, op), Owner(s, op);
      OpenedSound(s, op);
      UndisturbedOpened(s, op);
      IssuedApi(mid, op, id, op.ports - 1, id);
      IssuedRefresh(mid, op, id, op.ports - 1);
    }
  }

  lemma IssuedRefresh(s: Store, op: Op, id: string, ports: nat)
    requires !op.StartRecovery? && Exchange(s, op, id, ports).issued.Some?
    ensures var after := Exchange(s, op, id, ports).store;
            && after.refresh == s.refresh[op.token := Refresh(id, op.now + REFRESH_TTL, false)]
            && op.token !in s.refresh && after.recoveries == s.recoveries
  {
  }

  /** The record of a token that a call issues: valid for thirty days. */
  predicate IssuedTo(s: Store, op: Op, id: string)
    requires !op.StartRecovery?
  {
    op.token in s.refresh && s.refresh[op.token] == Refresh(id, op.now + 30 * DAY, false)
  }

  /**
   * An account is created exactly for an address with an @ that no account
   * has; its refresh token is missing when the second write fails.
   */
  lemma CreationExactly(s: Store, op: Op)
    requires op.Create? && op.id !in s.accounts && Fresh(s, op.api, op.token)
    ensures var o := Exec(s, op);
            if op.ports >= 1 && '@' in op.email && forall a :: a in s.accounts ==> s.accounts[a].email != op.email then
              && o.store.accounts == s.accounts[op.id := Account(op.email, op.api)]
              && o.store.recoveries == s.recoveries
              && (o.issued == if op.ports >= 2 then Some(Issued(op, op.id)) else None)
              && o.store.refresh - {op.token} == s.refresh
              && (op.ports >= 2 <==> op.token in o.store.refresh)
              && (op.ports >= 2 ==> IssuedTo(o.store, op, op.id))
            else
              o.store == s && o.issued.None?
  {
  }

  /**
   * An exchange is opened exactly by a stored, unspent token that has not
   * ended. Each write it gets to is made: the token is spent, the API token is
   * replaced, the refresh token is issued; the pair is returned when the
   * closing read goes through as well.
   */
  lemma ExchangeExactly(s: Store, op: Op)
    requires Sound(s) && (op.RefreshAccess? || op.CompleteRecovery?) && Fresh(s, op.api, op.token)
    ensures var o := Exec(s, op);
            if op.ports >= 1 && Redeemable(s, op) then
              var id := if op.RefreshAccess? then s.refresh[op.used].account else s.recoveries[op.code].account;
              && id in s.accounts
              && Spends(s, o.store, op)
              && o.store.accounts == (if op.ports >= 2 then s.accounts[id := s.accounts[id].(apiToken := op.api)]
                                      else s.accounts)
              && (op.ports >= 3 ==> IssuedTo(o.store, op, id))
              && (op.ports < 3 ==> op.token !in o.store.refresh)
              && o.issued == if op.ports >= 4 then Some(Issued(op, id)) else None
            else
              o.store == s && o.issued.None?
    ensures Exec(s, op).issued.Some? <==>
              op.ports >= 4 &&
              if op.RefreshAccess? then
                op.used != "" && op.used in s.refresh &&
                !s.refresh[op.used].used && op.now <= s.refresh[op.used].expiresAt
              else
                op.code != "" && op.code in s.recoveries &&
                !s.recoveries[op.code].used && op.now <= s.recoveries[op.code].expiresAt
  {
    hide ApiTokenFree; hide Sound; hide IssueRefresh;
    if Redeemable(s, op) && op.ports >= 1 {
      var mid, id := Opened(s, op), Owner(s, op);
      OpenedSound(s, op);
      FreshOpened(s, op);
      ExchangeStops(mid, op, id, op.ports - 1);
    }
  }

  /** The token given is spent; no other record changes, but for a new refresh token. */
  predicate Spends(s: Store, after: Store, op: Op)
    requires Redeemable(s, op)
  {
    && after.recoveries == (if op.RefreshAccess? then s.recoveries
                            else s.recoveries[op.code := s.recoveries[op.code].(used := true)])
    && after.refresh - {op.token} == (if op.CompleteRecovery? then s.refresh
                                      else s.refresh[op.used := s.refresh[op.used].(used := true)])
  }

  lemma FreshOpened(s: Store, op: Op)
    requires (op.RefreshAccess? || op.CompleteRecovery?) && Fresh(s, op.api, op.token) && Opens(s, op)
    ensures op.token !in Opened(s, op).refresh && ApiTokenFree(Opened(s, op), Owner(s, op), op.api)
  {
  }

  lemma ExchangeStops(s: Store, op: Op, id: string, ports: nat)
    requires !op.StartRecovery? && id in s.accounts && op.token !in s.refresh && ApiTokenFree(s, id, op.api)
    ensures var o := Exchange(s, op, id, ports);
            && o.store.recoveries == s.recoveries
            && o.store.accounts ==
                 (if ports >= 1 then s.accounts[id := s.accounts[id].(apiToken := op.api)] else s.accounts)
            && o.store.refresh ==
                 (if ports >= 2 then s.refresh[op.token := Refresh(id, op.now + 30 * DAY, false)] else s.refresh)
            && o.issued == if ports >= 3 then Some(Issued(op, id)) else None
  {
  }

  /**
   * A request for a code, when no code of the account is younger than a
   * minute: the usable codes go, the new one is stored for ten minutes, and
   * then it is mailed. Each step is taken that is not preceded by a failure.
   */
  lemma RequestExactly(s: Store, op: Op, id: string)
    requires Sound(s) && op.StartRecovery? && '@' in op.email && op.code !in s.recoveries
    requires id in s.accounts && s.accounts[id].email == op.email
    requires forall c :: c in s.recoveries && s.recoveries[c].account == id ==>
               s.recoveries[c].createdAt + 60 * SECOND <= op.now
    ensures var after := Exec(s, op).store;
            && after.accounts == s.accounts && after.refresh == s.refresh
            && (StartAnswer(s, op) == if op.ports >= 3 then CodeSent else Failed)
            && (forall c :: c in s.recoveries ==>
                  (c in after.recoveries <==>
                     op.ports == 0 || s.recoveries[c].account != id || s.recoveries[c].used))
            && (forall c :: c in after.recoveries && c != op.code ==>
                  c in s.recoveries && after.recoveries[c] == s.recoveries[c])
            && (op.code in after.recoveries <==> op.ports >= 2)
            && (op.ports >= 2 ==> after.recoveries[op.code] == Recovery(id, op.now + 600 * SECOND, op.now, false))
  {
    OneOwner(s, op.email, id);
    hide Sound;
  }

  // ---------- the service ----------

  /** The account service over its three tables; `allowed` port calls still go through. */
  class AccountService {
    var accounts: map<string, Account>
    var refresh: map<string, Refresh>
    var recoveries: map<string, Recovery>
    var allowed: nat

    constructor ()
      ensures Now() == EMPTY
    {
      accounts, refresh, recoveries, allowed := map[], map[], map[], 0;
    }

    ghost function Now(): Store
      reads this
    {
      Store(accounts, refresh, recoveries)
    }

    method Port() returns (ok: bool)
      modifies this`allowed
      ensures ok == (old(allowed) >= 1) && allowed == (if ok then old(allowed) - 1 else 0)
    {
      ok := allowed >= 1;
      if ok {
        allowed := allowed - 1;
      }
    }

    method UpdateApiToken(id: string, api: string) returns (ok: bool)
      modifies this
      ensures ok == (old(allowed) >= 1 && ApiTokenFree(old(Now()), id, api))
      ensures Now() == if ok then SetApiToken(old(Now()), id, api) else old(Now())
      ensures ok ==> allowed == old(allowed) - 1
    {
      ok := Port();
      if ok && exists a :: a in accounts && a != id && accounts[a].apiToken == api {
        ok := false;
      }
      if ok && id in accounts {
        accounts := accounts[id := accounts[id].(apiToken := api)];
      }
    }

    method IssueRefreshToken(ghost op: Op, id: string, token: string, now: Time) returns (ok: bool)
      requires !op.StartRecovery? && op.token == token && op.now == now
      modifies this
      ensures var o := IssueRefresh(old(Now()), op, id, old(allowed));
              Now() == o.store && ok == o.issued.Some?
      ensures ok ==> allowed == old(allowed) - 1
    {
      ok := Port();
      if token in refresh {
        ok := false;
      }
      if ok {
        refresh := refresh[token := Refresh(id, now + REFRESH_TTL, false)];
      }
    }

    method CreateAccount(id: string, email: string, now: Time, api: string, token: string) returns (ok: bool)
      modifies this
      ensures var o := Exec(old(Now()), Create(id, email, now, api, token, old(allowed)));
              Now() == o.store && ok == o.issued.Some?
    {
      ghost var op := Create(id, email, now, api, token, allowed);
      if '@' !in email || (exists a :: a in accounts && accounts[a].email == email) {
        return false;
      }
      ok := Port();
      if !ok || id in accounts || (exists a :: a in accounts && accounts[a].apiToken == api) {
        return false;
      }
      accounts := accounts[id := Account(email, api)];
      ok := IssueRefreshToken(op, id, token, now);
    }

    /** What RefreshAccess and CompleteRecoveryByToken do once the old token is spent. */
    method ExchangeFor(ghost op: Op, id: string, now: Time, api: string, token: string) returns (ok: bool)
      requires !op.StartRecovery? && op.token == token && op.api == api && op.now == now
      modifies this
      ensures var o := Exchange(old(Now()), op, id, old(allowed));
              Now() == o.store && ok == o.issued.Some?
    {
      ok := UpdateApiToken(id, api);
      if !ok {
        return;
      }
      ok := IssueRefreshToken(op, id, token, now);
      if !ok {
        return;
      }
      ok := Port();
      ok := ok && id in accounts;
    }

    method RefreshAccess(used: string, now: Time, api: string, token: string) returns (ok: bool)
      modifies this
      ensures var o := Exec(old(Now()), Op.RefreshAccess(used, now, api, token, old(allowed)));
              Now() == o.store && ok == o.issued.Some?
    {
      ghost var op := Op.RefreshAccess(used, now, api, token, allowed);
      if used == "" || used !in refresh || refresh[used].used || refresh[used].expiresAt < now {
        return false;
      }
      var stored := refresh[used];
      ok := Port();
      if !ok {
        return;
      }
      refresh := refresh[used := stored.(used := true)];
      ok := ExchangeFor(op, stored.account, now, api, token);
    }

    method CompleteRecoveryByToken(code: string, now: Time, api: string, token: string) returns (ok: bool)
      modifies this
      ensures var o := Exec(old(Now()), CompleteRecovery(code, now, api, token, old(allowed)));
              Now() == o.store && ok == o.issued.Some?
    {
      ghost var op := CompleteRecovery(code, now, api, token, allowed);
      if code == "" || code !in recoveries || recoveries[code].used || recoveries[code].expiresAt < now {
        return false;
      }
      var recovery := recoveries[code];
      ok := Port();
      if !ok {
        return;
      }
      recoveries := recoveries[code := recovery.(used := true)];
      ok := ExchangeFor(op, recovery.account, now, api, token);
    }

    method StartRecovery(email: string, now: Time, code: string) returns (answer: RecoveryAnswer)
      requires Sound(Now())
      modifies this
      ensures var op := Op.StartRecovery(email, now, code, old(allowed));
              Now() == Exec(old(Now()), op).store && answer == StartAnswer(old(Now()), op)
    {
      if '@' !in email || !(exists a :: a in accounts && accounts[a].email == email) {
        return Ignored;
      }
      var id :| id in accounts && accounts[id].email == email;
      OneOwner(Now(), email, id);
      hide Sound; hide SendCode; hide Opens; hide DropActive;
      if exists c :: c in recoveries && recoveries[c].account == id && now - recoveries[c].createdAt < RECOVERY_WINDOW {
        return TooSoon;
      }
      var sent := CreateAndSendCode(id, now, code);
      answer := if sent then CodeSent else Failed;
    }

    /** createAndSendRecoveryCode. */
    method CreateAndSendCode(id: string, now: Time, code: string) returns (ok: bool)
      modifies this
      ensures Now() == SendCode(old(Now()), id, now, code, old(allowed))
      ensures ok <==> old(allowed) >= 3 && code !in DropActive(old(Now()), id).recoveries
    {
      ok := Port();
      if !ok {
        return;
      }
      recoveries := map c | c in recoveries && (recoveries[c].account != id || recoveries[c].used) :: recoveries[c];
      ok := Port();
      if !ok || code in recoveries {
        return false;
      }
      recoveries := recoveries[code := Recovery(id, now + RECOVERY_TTL, now, false)];
      ok := Port();
    }
  }
}
