# Mailservice verification

Dafny proofs about a model of the mailservice: mailboxes sold by the month or
given away in free mode, paid through Open Collective or another gateway, and
backed by a second store of logins that may be enabled or not.

`dafny verify dfyconfig.toml` checks everything.

## What is modelled

**Mailbox lifecycle.** A mailbox row is pending, active or expired, with an
optional expiry and a payment cursor. `Lifecycle` gives every service call as a
journal of writes: which writes, in which order, when any of the port calls it
makes may fail. The state in the middle of a call is the replay of a prefix of
its journal. `MailboxService` has the same calls as methods that read a row,
change the copy field by field and write it back; each is proved to perform
exactly the journal. The theorems are about journals, so they hold of the
methods, and they hold in the middle of a call that broke off.

`Legality` and `CallLegality` show that all calls, with any set of failures,
only perform writes that are legal in the state they meet. The invariants
follow, write by write, over any run: no expired login is enabled
(`Revocation`), each charge is credited at most once and the paid intervals do
not overlap (`PaidTime`), an activation link's grant is permanent
(`FreeActivation`), the gift is given once (`Gift`). `PollConvergence`,
`TiedCharges`, `AccountPolls` and `Retries` are about calls that fail part-way
and are repeated, for single rows, for charges of one time, and for whole tables
with their accounts; `ConcurrentPolls` about polls that interleave step by step,
with and without the mutex around them.

What each call does to each row is also written out on its own, without the
functions the journals are made of: `Claims` (coupons, new keys, checkouts kept
or replaced, and when a claim polls), `Access` (who gets in, by key and by
token, and what one charge does), `Onboarding` (activation, mailboxes of
accounts, and from a claim to a working mailbox), `Signals` (payment signals and
the report of the pending reconciler) and `Administration`.
`Episodes` plays whole stories from an empty table. `Calendar` is Go's `AddDate`
on the proleptic Gregorian calendar, from the lengths of the months.

**Charge feed.** `ChargeFeed` pages through the remote orders, filters,
attributes and sorts, and composes with the poll. `CreditedCharges` says which of
its charges a poll credits.

**Metrics.** `HourCounter` proves the 24-slot ring against a log of everything
ever added, `LatencyHistogram` the buckets against the sorted observations,
`TopMessages` the map and linked list against the history of increments.

**Key proofs.** `Challenge` prints and checks the challenge text; `SshWire` has
SSH strings (section 5 of RFC 4251), Ed25519 keys and signatures (sections 4 and
6 of RFC 8709) and the SSHSIG layout (OpenSSH PROTOCOL.sshsig). HMAC, SHA-2,
Ed25519 and base64 are arbitrary functions.

**Accounts and support.** `Accounts` has API, refresh and recovery tokens, one
call at a time, with when a recovery code is sent over whole runs;
`OverlappingExchanges` has exchanges that overlap. `Support` has the
limit on support messages, one call at a time and overlapping.

## Properties the code does not have

Each of these is a lemma, with the exact condition under which the property holds
where a condition decides it.

- A grant without expiry is permanent exactly for rows without a `tva-` tag in
  their payment session (`FreeActivation.PermanentIffUntagged`): with one, the
  next charge of a poll gives the row an expiry. A free claim, a paid claim and
  then the old link reach such a row (`Episodes.TaggedGrantReached`).
- Over every run of all calls a row gets the gift more than once if and only if a
  stray signal pays it after it had its gift (`Gift.GiftTwiceExactlyWhen`). A
  signal is stray when it finds, in paid mode, a key-bound row that still has the
  gift months and has expired or recorded no session; before the first gift it is
  harmless, being that gift. A claim, a signal, the sweep and a second signal do
  give the gift twice (`Episodes.GiftGivenTwice`).
- A poll credits every contribution of a checkout exactly if their times strictly
  rise after the cursor (`CreditedCharges.ContributionsCredited`); a second one of
  the same time is passed over for good.
- An account-bound row whose write fails after its account was extended is
  extended once more on the retry, exactly if the row was pending
  (`PollConvergence.AccountRetry`). Without such a failure rows and accounts of a
  whole table converge (`AccountPolls.AccountsConverge`).
- Feeds may order charges of one time differently; the rows then agree but for the
  ID of the last charge (`TiedCharges.TiedPollsConverge`).
- When a poll wrote a row but could not enable its login, later polls do not
  come back to it; the next access by key does (`Access.FailedProvisionStays`).
- A pending mailbox that an account got in free mode is handed out again in paid
  mode without a checkout (`Onboarding.CreationServes`).
- Without the mutex a stale copy moves the payment cursor back
  (`ConcurrentPolls.UnlockedCursorGoesBack`).
- Rotations of a counter compose exactly if its hour is set or it holds nothing
  (`HourCounter.RotationsComposeExactlyWhen`). An unset hour is that of the
  throw-away counters for a missing registry or a blank name
  (internal/platform/metrics/metrics.go:289-296), which are added to but never
  rotated, and of a counter made in the first hour of 1970.
- Adding months is monotone at an instant exactly while it is no further into its
  month than the target month is long
  (`Calendar.AddMonthsMonotoneExactlyWhen`).
- A refresh token or recovery code is exchanged at most as often as it is held at
  one time by calls that read it and have not marked it
  (`OverlappingExchanges.ExchangedAtMostHeld`), and exactly as often by any number
  of calls that read it together
  (`OverlappingExchanges.HeldTogetherExchangedByAll`).
- With at most n support calls of a key between count and insert an hour holds up
  to `LIMIT + n - 1` messages, never more (`Support.OverlapBound`), and that many
  for every n (`Support.OverlapReached`).
- The bounds check of the key parser wraps around; it reads outside the blob
  under the condition of `SshWire.ExtractKeyInBounds`.

## Model

| member | source | states |
|---|---|---|
| `PollConvergence.PollsConverge` | internal/core/service/mailbox_service.go:599-654 | any polls of parts of the charges, each cut short by any failure, followed by one successful poll of all of them, leave every key-bound row as one uninterrupted poll does: the charges of its tag folded in once each |
| `PollConvergence.PollAgainIdle` | internal/core/service/mailbox_service.go:618-651 | after a successful poll the same charges, polled again with any failures, apply none and write nothing |
| `PollConvergence.FoldPrefixes` | internal/core/service/mailbox_service.go:613-621 | of two prefixes of one charge list, folded one after the other into a row, only the longer counts: the cursor makes crediting idempotent |
| `PollConvergence.PollRow` | internal/core/service/mailbox_service.go:611-651 | a poll that stopped anywhere has given a key-bound row the charges of its tag in some prefix of the feed, and in the whole feed when it succeeded |
| `PollConvergence.AccountRetry` | internal/core/service/mailbox_service.go:495-521 | for an account-bound row, a failed row write and its retry extend the account twice exactly if the row was pending |
| `ConcurrentPolls.InterleavingsAreSerial` | internal/core/service/mailbox_service.go:603-654 | with lookup and write of each charge as separate steps of any number of callers, whenever no poll runs the state and all writes made are those of the served polls run one after the other, so the writes credit no charge twice |
| `ConcurrentPolls.CursorNeverGoesBack` | internal/core/service/mailbox_service.go:603-651 | in any interleaving no step moves a payment cursor back, and a step that changes a row moves it forward |
| `ConcurrentPolls.UnlockedCursorGoesBack` | internal/core/service/mailbox_service.go:603-604 | without the mutex a stale copy, saved late, moves the cursor from the second charge back to the first |
| `PaidTime.CreditedAtMostOnce` | internal/core/service/mailbox_service.go:613-651 | over any run of all calls with any failures, the charges credited to a row are strictly later and later, and the cursor is the last of them |
| `PaidTime.PaidTimeConserved` | internal/core/service/mailbox_service.go:466-485 | over any paid-mode run from an empty table, the intervals bought for a key-bound mailbox are disjoint and ordered, start no earlier than their charge, end at its expiry, and n months lie between 28n days after the first and 31n days after the last charge |
| `Revocation.ExpiredNeverEnabled` | internal/core/service/mailbox_service.go:557-566 | after every single write of every call of any run, an expired key-bound row has a login that is not enabled |
| `Revocation.DisableExpiredRevokes` | internal/core/service/mailbox_service.go:744-761 | a successful run of it in paid mode disables the login of every expired row from any state, changes no row and enables nothing |
| `FreeActivation.PermanentForever` | internal/core/service/mailbox_service.go:391-433 | a row activated without expiry and without a tva- session is the same after every write of any run of non-administrative calls, with the mode switched at will |
| `FreeActivation.PermanentIffUntagged` | internal/core/service/mailbox_service.go:618-636 | among unlimited key-bound rows exactly those without a tva- session keep an unlimited grant over all such runs |
| `FreeActivation.TaggedGrantEnds` | internal/core/service/mailbox_service.go:618-636 | with a tva- session, switching to paid mode and one charge give the row an expiry |
| `Gift.GiftTwiceExactlyWhen` | internal/core/service/mailbox_service.go:172-205 | over every run of all calls with any failures, a row gets the three-month grant more than once if and only if a stray signal pays it after it had its gift |
| `Gift.StraySignalExactlyWhen` | internal/core/service/mailbox_service.go:440-493 | without failures a signal pays the gift to a row with no checkout pending if and only if it is stray: key-bound, gift months left, and expired or without a session |
| `Episodes.GiftGivenTwice` | internal/core/service/mailbox_service.go:436-493 | a claim with a coupon, a signal, the sweep after the gift and the signal again give the gift twice from an empty table; the last signal is stray |
| `Episodes.TaggedGrantReached` | internal/core/service/mailbox_service.go:177-211 | a free claim, paid mode, a paid claim of the same key and the old link reach an unlimited row with a tva- session from an empty table |
| `Retries.SweepsConverge` | internal/core/service/mailbox_service.go:718-741 | after any number of failed sweeps a successful one leaves expired exactly the rows expired before and the rows due, all others untouched, and the counts add up to the rows flipped |
| `Retries.SwitchoversConverge` | internal/core/service/mailbox_service.go:769-818 | failed switchovers, rerun within a token lifetime until one succeeds, leave one new token for a day, and no checkout, on each pending row that lacked a valid one, no expiry on any active row and any account, and expired rows as they were; the conversions reported add up to the rows served, and a further run converts none |
| `ChargeFeed.OpenCollectiveGateway.ListPaidCharges` | internal/adapters/payment/opencollective_gateway.go:126-164 | succeeds exactly when configured, under 2000 orders, no needed page lost and every settled time readable; then the result is sorted and, as a multiset, exactly the settled contributions of creditable orders |
| `CreditedCharges.ContributionsCredited` | internal/core/service/mailbox_service.go:608-651 | over a complete feed a successful poll credits to a row exactly the contributions of its tag later than its cursor and all before them; all of them if and only if their times strictly rise after the cursor |
| `CreditedCharges.AllTakenExactlyWhen` | internal/core/service/mailbox_service.go:618-621 | a cursor takes all of a list exactly when it strictly rises after it |
| `CreditedCharges.PollCounts` | internal/core/service/mailbox_service.go:602-654 | a successful poll reports as many charges as it credited to rows |
| `ChargeFeed.NoContributionLeft` | internal/core/service/mailbox_service.go:608-651 | a complete feed and a successful poll leave every settled contribution at or before the cursor of the row with its tag |
| `ChargeFeed.GrowingFeedShowsPart` | internal/adapters/payment/opencollective_gateway.go:158-160 | a feed that later grows by later charges only shows, per tag, a prefix of the charges of the later feed: the input contract of the poll |
| `HourCounter.SumIsSlidingWindow` | internal/platform/metrics/metrics.go:29-89 | after any additions and rotations the sum of the ring is the sum of the deltas logged in the current hour slot and the 23 before |
| `HourCounter.RotationsCompose` | internal/platform/metrics/metrics.go:62-89 | for a <= b, rotating to a and then to b is rotating to b, jumps over 24 hours included |
| `HourCounter.RotationsComposeExactlyWhen` | internal/platform/metrics/metrics.go:62-89 | rotations of a ring compose exactly if its hour is set or its buckets are all zero |
| `LatencyHistogram.ValueAtIsOrderStatistic` | internal/platform/metrics/metrics.go:159-174 | valueAt of the buckets at index k is the k-th smallest observation, rounded up to its bucket bound |
| `LatencyHistogram.RoundedBounds` | internal/platform/metrics/metrics.go:99-113 | the rounding is to the least bound not below the observation, capped at 10000 |
| `LatencyHistogram.PercentileMonotone` | internal/platform/metrics/metrics.go:115-149 | rises on [0, 1] and lies in 1 .. 10000 for every argument once anything was observed |
| `LatencyHistogram.PercentileAtIndex` | internal/platform/metrics/metrics.go:139-146 | at a whole position the percentile is that order statistic |
| `TopMessages.TableHoldsRecent` | internal/platform/metrics/metrics.go:200-233 | the entries are exactly the 16 most recently incremented distinct messages in recency order, without duplicates |
| `TopMessages.CountSinceAbsent` | internal/platform/metrics/metrics.go:213-221 | a count is the number of increments since the message was last absent from the table |
| `TopMessages.RankingUnique` | internal/platform/metrics/metrics.go:242-252 | only one list ranks a set of entries by count descending and message ascending, so map iteration order does not matter |
| `Challenge.RoundTrip` | internal/adapters/identity/edproof/challenge.go:57-125 | a challenge made at t is accepted at now for every line with the same key field exactly when now - floor(t) <= maxAge and floor(t) - now <= 5 s, and is never called tampered with |
| `Challenge.MacInputInjective` | internal/adapters/identity/edproof/challenge.go:112-113 | the text under the MAC determines time text, nonce text and key field |
| `Challenge.Bound` | internal/adapters/identity/edproof/challenge.go:107-122 | with an injective HMAC a generated challenge is accepted for no other key field |
| `Challenge.AcceptedCarriesMac` | internal/adapters/identity/edproof/challenge.go:72-124 | the accepted texts are exactly those of version v1 that carry a time in the window and the MAC of their own time and nonce with the key field of an ssh-ed25519 line |
| `SshWire.ReadInvertsWrite` | internal/adapters/identity/edproof/challenge.go:289-310 | reading returns (value, rest) exactly for the bytes written for value followed by rest |
| `SshWire.SignedDataInjective` | internal/adapters/identity/edproof/challenge.go:279-287 | namespace, algorithm and hash are determined by the signed data |
| `SshWire.VerifySshSig` | internal/adapters/identity/edproof/challenge.go:182-276 | accepts exactly the blobs of the SSHSIG layout (version 1, namespace edproof, sha256 or sha512, ssh-ed25519, 64 bytes, tails allowed) whose signature verifies on the rebuilt data |
| `SshWire.DecodeEncode` | internal/adapters/identity/edproof/challenge.go:185-251 | the part-by-part reading of a laid-out blob gives back every part |
| `SshWire.ExtractKeyLayout` | internal/adapters/identity/edproof/challenge.go:339-371 | accepts exactly a 32-byte key string after the key type, with any tail |
| `SshWire.ExtractKeyInBounds` | internal/adapters/identity/edproof/challenge.go:349-353 | leaves the blob exactly when the declared type length plus 8 wraps around, fits after wrapping, and the type ends outside the blob |
| `Accounts.ExchangedAtMostOnce` | internal/core/service/account_service.go:84-192 | over any run with failures after any write, each refresh token and each recovery code is exchanged at most once |
| `Accounts.TokensConserved` | internal/core/service/account_service.go:48-261 | an account has at most 1 + (completed recoveries) unused refresh tokens in any run, and exactly that many in a run without failures |
| `Accounts.LastTokenResolves` | internal/core/service/account_service.go:194-200 | in a run without failures exactly the API token issued last resolves to an account, and to no other account |
| `Accounts.ExchangeSucceedsIff` | internal/core/service/account_service.go:84-192 | without failures an exchange succeeds exactly for a stored, unused, unexpired token; the new pair is then live and the old token is not |
| `Support.WindowHoldsThree` | internal/core/service/mailbox_service.go:1135-1172 | every closed one-hour window of any run holds at most three stored messages of a key, even if the clock goes back between calls |
| `Support.LimitedExactlyWhenFull` | internal/core/service/mailbox_service.go:1154-1160 | with a clock that never goes back a call is turned away exactly when the hour before it holds three messages |
| `Support.OverlapBound` | internal/core/service/mailbox_service.go:1154-1172 | with at most n calls of a key between count and insert, in any interleaving, a one-hour window holds at most LIMIT + n - 1 messages |
| `Support.OverlapReached` | internal/core/service/mailbox_service.go:1154-1172 | that bound is reached for every n |
| `Support.CallIsTwoSteps` | internal/core/service/mailbox_service.go:1154-1172 | a call on its own is its count step and its insert step |
| `Calendar.AddMonthsSpan` | internal/core/service/mailbox_service.go:475-481 | m months added by AddDate are 28m to 31m days |
| `Calendar.ThreeMonthsSpan` | internal/core/service/mailbox_service.go:116 | the gift is 89 to 92 days |
| `Calendar.AddMonthsMonotoneExactlyWhen` | internal/core/service/mailbox_service.go:480 | no later instant lands earlier under AddDate exactly while the instant is no further into its month than the target month is long |
| `Calendar.JanuaryLandsInOrderUntil29th` | internal/core/service/mailbox_service.go:631 | in a common year a month after January lands in order exactly up to 29 January at midnight |
| `Access.KeyAccess` | internal/core/service/mailbox_service.go:907-948 | with any failures: a key gets in exactly when its row is active, paid for and before its expiry and its login can be enabled, and only the login changes; a row past due loses its login and is then expired; any other is left alone |
| `Access.TokenAccess` | internal/core/service/mailbox_service.go:824-900 | with any failures: an access token gets in exactly when its row, its account subscription or a grant of free mode entitles it; a row that was not active takes the expiry of its account, a refused row that lapses is disabled and expired, and no other row changes |
| `Access.PollLeavesPaidEnabled` | internal/core/service/mailbox_service.go:611-651 | a successful poll disables no login, and every row it changed is active and enabled |
| `Access.FailedProvisionStays` | internal/core/service/mailbox_service.go:642-649 | when only enabling failed, polling again does nothing, and the next access by key enables the login |
| `Onboarding.ClaimServes` | internal/core/service/mailbox_service.go:125-269 | a successful claim leaves the key usable, or with a valid token (free mode) or a checkout (paid mode) in its row, whatever its poll did and wherever it failed |
| `Onboarding.ActivationExactlyWhen` | internal/core/service/mailbox_service.go:391-433 | with any failures: a token activates a pending row without expiry exactly until it runs out, row before login, only enables the login of an active row, and otherwise changes nothing |
| `Onboarding.ClaimThenActivate` | internal/core/service/mailbox_service_free.go:22-75 | a free-mode claim and its link give an enabled, permanent mailbox exactly within 24 hours |
| `Onboarding.ClaimThenCharge` | internal/core/service/mailbox_service.go:217-268 | a paid claim of a new key and a charge under its tag give one month from the charge, or three with an accepted coupon, and an enabled login |
| `Onboarding.CreationServes` | internal/core/service/mailbox_service.go:285-365 | creation for an account yields an active row for its subscription or a pending one with link or checkout, except that a pending row of free mode is handed out in paid mode as it is |
| `Signals.SignalPays` | internal/core/service/mailbox_service.go:440-523 | with any failures: a signal pays exactly the row of its session, unless it is active, after its account and before its login; for an inactive row of an unknown account it fails and changes nothing |
| `Signals.PendingReconciled` | internal/core/service/mailbox_service.go:659-713 | without failures exactly the pending key-bound rows whose session the gateway confirms are paid and enabled |
| `Accounts.OneCodeAtATime` | internal/core/service/account_service.go:217-242 | in any run, whatever fails, no account has two usable recovery codes |
| `Accounts.CodesAMinuteApart` | internal/core/service/account_service.go:202-215 | with a clock that never goes back, codes for one account are stored at least a minute apart, even if storing one failed in between |
| `SshWire.VerifySignature` | internal/adapters/identity/edproof/challenge.go:131-159 | accepts exactly short texts that decode to an acceptable SSHSIG blob or to 64 bytes that verify over the challenge itself, and breaks off exactly when the key parser leaves the blob |
| `Signals.ReportTells` | internal/core/service/mailbox_service.go:668-713 | one result for each pending row in table order: what the gateway said of its session, whether a payment was tried, and as many payments as the call made |
| `Onboarding.ClaimReturnsStored` | internal/core/service/mailbox_service.go:125-269 | the mailbox a claim returns is the stored one, except that a copy whose checkout stays in use is returned as it was read, with the session and link of its row |
| `OverlappingExchanges.ExchangedAtMostHeld` | internal/core/service/account_service.go:84-192 | with the read and the mark of an exchange as separate steps, a refresh token or a recovery code is exchanged at most as often as it is held at one time |
| `OverlappingExchanges.HeldTogetherExchangedByAll` | internal/core/service/account_service.go:84-192 | a redeemable token or code that n calls read before any marks it is exchanged n times, and n refresh tokens come of it |
| `OverlappingExchanges.ExchangeIsTwoSteps` | internal/core/service/account_service.go:84-192 | an exchange on its own is its read and the rest |
| `Accounts.AnswerTells` | internal/core/service/account_service.go:128-148 | an ignored or limited recovery changes nothing, and a sent one leaves its code as the one usable code of the account |
| `AccountPolls.AccountsConverge` | internal/core/service/mailbox_service.go:599-654 | polls of prefixes of the charges, cut short by any failure but a lost row write of a pending account-bound row, and then one successful poll, leave all rows and accounts as one uninterrupted poll |
| `AccountPolls.ChargeOutcome` | internal/core/service/mailbox_service.go:611-651 | a charge with any failures leaves nothing, all of it, or the extended account alone when the row was not written |
| `AccountPolls.AheadIsHarmless` | internal/core/service/mailbox_service.go:626-644 | for a row that is not pending, an account that is ahead already changes nothing for the retry |
| `TiedCharges.TiedPollsConverge` | internal/core/service/mailbox_service.go:599-654 | polls of feeds that agree on the times of each checkout converge but for the last charge ID, whatever the order of equal times |
| `TiedCharges.GrowingFeedShowsTimes` | internal/adapters/payment/opencollective_gateway.go:158-160 | of two sorted feeds, the later having new charges only at or after the old ones of their checkout, the earlier shows the first of the times, ties or not |
| `Claims.CouponDecides` | internal/core/service/mailbox_service.go:142-148 | whatever fails, a claim without an @, without a key, or in paid mode with a coupon other than the one configured with a discount writes nothing |
| `Claims.NewKeyClaims` | internal/core/service/mailbox_service.go:217-269 | a new key gets its row exactly for a proper claim whose tokens, checkout and write do not fail: with the checkout, and the three months for the configured coupon, or in free mode with a token for a day; the claim succeeds when the mail goes out as well |
| `Claims.FreeReclaims` | internal/core/service/mailbox_service.go:150-170 | a key whose mailbox is in use gets it back unchanged; in free mode any other mailbox becomes pending with a new token and no checkout, stored before the mail |
| `Claims.PaidReclaims` | internal/core/service/mailbox_service.go:150-212 | the outcome of every paid claim of a key whose mailbox is not in use, with any failures: paid meanwhile by the claim's own poll, refused for a coupon used before or a gateway error, the checkout kept, or the row stored with a new checkout and then mailed |
| `Claims.ClaimPollsExactlyWhen` | internal/core/service/mailbox_service.go:569-587 | a claim polls exactly when it is proper, finds a pending mailbox under Open Collective, and no claim polled in the 30 seconds before |
| `Claims.ClaimPollsApart` | internal/core/service/mailbox_service.go:569-587 | over any run of all calls the polls of claims are at least 30 seconds apart |
| `Access.SyncedEnds` | internal/core/service/mailbox_service.go:855-873 | a row that access by token brought up to date is let in exactly until the subscription of its account ends, then refused whatever fails, and expired at the first access |
| `Access.ChecksEntitled` | internal/core/service/mailbox_service.go:824-873 | the subscription check passes exactly the entitled, and the row it leaves is the old one, the one with the expiry of the account, or the expired one |
| `Access.LetInOrDue` | internal/core/service/mailbox_service.go:718-734 | of the paid active rows the sweep lists exactly those that access by key refuses |
| `Access.ChargeExactly` | internal/core/service/mailbox_service.go:611-651 | one charge on any row with any failures: passed over without a tag, an ID or a later time; stopped before any write, as for a pending row of an unknown account; otherwise account, row and login in this order, paid from the later of charge and expiry, with the cursor at the charge |
| `Retries.SwitchClears` | internal/core/service/mailbox_service.go:776-786 | past its first bulk write a switchover has cleared the expiry of every active row and of no other, past its second that of every account, wherever it stops |
| `Retries.SwitchoverReports` | internal/core/service/mailbox_service.go:774-818 | the report counts the active rows, the accounts whose expiry was taken, and the rows that got a token, failed or not |
| `LatencyHistogram.PercentileBetween` | internal/platform/metrics/metrics.go:139-148 | between two indices the percentile is the weighted mean of the two order statistics, rounded to the nearest |
| `LatencyHistogram.PercentileOfAny` | internal/platform/metrics/metrics.go:126-138 | an argument above one is a percentage, outside the range it is cut off, and without observations the answer is 0 |
| `Accounts.CodeSentExactlyWhen` | internal/core/service/account_service.go:128-215 | with a clock that never goes back, and whatever failed before, a recovery request that meets no failure sends a code exactly when none was stored for the account in the minute before |
| `Accounts.RequestExactly` | internal/core/service/account_service.go:202-242 | the codes after a request outside the minute, up to the port that fails: usable ones dropped, the new one stored for ten minutes |
| `Accounts.ExchangeExactly` | internal/core/service/account_service.go:84-192 | each write an exchange gets to, up to the port that fails: token spent, API token replaced, refresh token for thirty days; the pair is returned exactly for a stored, unspent token not past its end |
| `Accounts.CreationExactly` | internal/core/service/account_service.go:48-82 | an account is created exactly for an address with an @ that no account has, with a refresh token for thirty days unless the second write fails |
| `Onboarding.CreationExactly` | internal/core/service/mailbox_service.go:285-365 | CreateMailbox with any failures, row by row: active until the subscription ends, a new pending row with link or checkout, a new link in free mode, or the pending row as it is |
| `Onboarding.CreationReturnsStored` | internal/core/service/mailbox_service.go:285-365 | the mailbox handed out is a stored row, and is called new exactly when the table grew by it |
| `Administration.RenewalExactly` | internal/core/service/mailbox_service.go:525-541 | a renewal in paid mode makes the row active with the times given, unless lookup or write fails |
| `Administration.ExpiryExactly` | internal/core/service/mailbox_service.go:543-566 | an administrative expiry in paid mode disables the login and then expires the row, as far as no failure stops it |
| `Administration.ResetExactly` | internal/core/service/mailbox_service.go:1045-1095 | a reset stores the mailbox of the key, old or new, and then enables the login, as far as no failure stops it; access by the key follows exactly until the time given |
| `Administration.FreeModeInert` | internal/core/service/mailbox_service.go:443-743 | in free mode signals, polls, sweeps, renewals and expiries succeed and write nothing |
| `Administration.NothingFound` | internal/core/service/mailbox_service.go:391-930 | an unknown session, token, key or ID, or a listing that fails, fails the call and changes nothing |
| `ChargeFeed.ContributionsExactly` | internal/adapters/payment/opencollective_gateway.go:134-157 | the charges are exactly the settled, unrefunded contributions of monthly orders on the tier that carry one checkout tag and no second |
| `ChargeFeed.TimedExactly` | internal/adapters/payment/opencollective_gateway.go:145-155 | the one thing in the orders that refuses the feed is such a contribution without a readable time |
| `SshWire.AcceptedLayout` | internal/adapters/identity/edproof/challenge.go:182-287 | the acceptable blobs string by string, with the signed data: only namespace, hash name, key type and signature are looked at |
| `SshWire.WireString` | internal/adapters/identity/edproof/challenge.go:304-310 | a string on the wire is four bytes of big-endian length and its bytes |
| `Challenge.ParseIntExactly` | internal/adapters/identity/edproof/challenge.go:94 | the times accepted are exactly the decimal numerals of 64 bits, with a sign or leading zeros |
| `Challenge.HexDecodeExactly` | internal/adapters/identity/edproof/challenge.go:115 | a MAC text is read exactly when it is the encoding, with letters of either case |
| `Calendar.Gregorian` | internal/core/service/mailbox_service.go:480 | the lengths of the months and the first days of the years are those of the Gregorian calendar |
| `TopMessages.RankedExactly` | internal/platform/metrics/metrics.go:242-252 | in a ranking counts fall, and among equal counts messages rise in byte order |
| `Support.StoredExactlyWhen` | internal/core/service/mailbox_service.go:1144-1190 | a message is stored exactly when support is set up, the key has a mailbox and fewer than three messages of the hour before, and the ports before the mail do not fail |
| `Access.PollSucceeds` | internal/core/service/mailbox_service.go:599-654 | a poll that meets no failure succeeds, if the accounts of all pending rows are known |
| `Retries.SweepStopsExactly` | internal/core/service/mailbox_service.go:718-741 | a sweep succeeds exactly if no due row meets a failure, and otherwise stops at the first that does |
| `Retries.SwitchoverExactly` | internal/core/service/mailbox_service.go:790-818 | the pending rows that need a token get the one drawn for them up to the first that meets a failure or has no address to link to, and the switchover succeeds exactly if none does |
| `Revocation.DisableExpiredStopsExactly` | internal/core/service/mailbox_service.go:744-761 | the logins of expired rows are disabled in table order up to the first that fails, and counted |
| `Legality.UniqueWithout` | internal/platform/database/migrations/20260311220000_fix_stripe_session_id_unique_constraint.sql:50-57 | dropping a session keeps the unique indexes |
| `CallLegality.ExecLegal` | internal/core/service/mailbox_service.go:125-1095 | every call, with any failures, performs legal writes only, each legal in the state it meets |
| `CallLegality.ClaimLegal` | internal/core/service/mailbox_service.go:125-269 | a claim, with the poll it triggers and the stale copy it then saves, performs legal writes only |
| `CallLegality.PollLeaves` | internal/core/service/mailbox_service.go:611-621 | a poll leaves a row alone whose session is not a tva- tag |
| `CallLegality.ClaimPollLegal` | internal/core/service/mailbox_service.go:569-587 | the poll of a claim writes legally and leaves rows without a tva- session alone |
| `CallLegality.SwitchoverLegal` | internal/core/service/mailbox_service.go:769-818 | a switchover, stopped anywhere, writes legally |
| `CallLegality.ResolveByTokenLegal` | internal/core/service/mailbox_service.go:875-900 | access by token, with the expiry or the synchronisation it may do, writes legally |
| `Legality.MarkPaidLegal` | internal/core/service/mailbox_service.go:440-523 | a payment is legal: months, base, cursor and status as granted, and the login enabled only after the row is active |
| `Legality.PollPrefixLegal` | internal/core/service/mailbox_service.go:599-654 | a poll, stopped anywhere, writes legally |
| `Legality.LegalKeepsConsistent` | internal/platform/database/migrations/20260311220000_fix_stripe_session_id_unique_constraint.sql:50-57 | a legal write keeps the unique indexes and a payment link beside every session |
| `Legality.SweepRows` | internal/core/service/mailbox_service.go:727-741 | a sweep stopped anywhere has expired exactly the first count of the due rows |
| `Legality.SwitchRows` | internal/core/service/mailbox_service.go:790-818 | a switchover stopped anywhere has given tokens to the rows lacking one among the first p listed, as many as it reports |
| `Runs.RunLegal` | internal/core/service/mailbox_service.go:125-1095 | the writes of any run of calls are legal, and every state in between is consistent |
| `Runs.ExecKinds` | internal/core/service/mailbox_service.go:125-1095 | which kinds of writes each call may perform |
| `Revocation.WriteKeepsRevoked` | internal/core/service/mailbox_service.go:557-566 | a legal write never leaves an expired key-bound row enabled |
| `PaidTime.WriteMovesCursor` | internal/core/service/mailbox_service.go:619-621 | a write that credits a charge moves the cursor to it from strictly before it, and no other write moves the cursor |
| `FreeActivation.WriteKeepsPermanent` | internal/core/service/mailbox_service.go:443-459 | no legal non-administrative write changes a permanent row |
| `Gift.CallKeepsGift` | internal/core/service/mailbox_service.go:125-1095 | every call keeps at most one gift, but for a stray payment of a row that had it |
| `Gift.WriteKeepsGift` | internal/core/service/mailbox_service.go:172-204 | one write keeps: at most one gift given, the coupon marked with every pending gift, and no payable gift left once it was given |
| `Gift.PendingPays` | internal/core/service/mailbox_service.go:677-701 | every row the pending reconciler pays is still pending with a checkout when it is paid |
| `Retries.SweepOnce` | internal/core/service/mailbox_service.go:718-741 | one sweep, failed or not, expires due rows only, as many as it counts, and all of them on success |
| `Retries.SwitchOnce` | internal/core/service/mailbox_service.go:769-818 | one switchover, failed or not, gives each row that needs a token at most one, counts them, serves all of them on success, and clears active rows and accounts as far as its bulk writes went |
| `PollSteps.CreditRows` | internal/core/service/mailbox_service.go:611-651 | one charge, with any failure, changes at most the row of its tag, and a key-bound row by exactly that charge |
| `ChargeFeed.ContributionsTagged` | internal/adapters/payment/opencollective_gateway.go:136-155 | every charge of the feed has a tva- tag and an ID |
| `Domain.Find` | internal/adapters/repository/mailbox_gorm.go:120-187 | a lookup returns the first matching row, and none only if no row matches |
| `Domain.Select` | internal/adapters/repository/mailbox_gorm.go:159-240 | a listing holds exactly the positions of the selected rows, in table order |
| `Domain.ListedExactly` | internal/adapters/repository/mailbox_gorm.go:159-235 | the listings hold exactly the pending rows, the expired rows, and the active rows at or past their expiry |
| `Domain.FindUnique` | internal/platform/database/migrations/20260311220000_fix_stripe_session_id_unique_constraint.sql:50-57 | by a unique column a lookup finds the one row that has the value |
| `Lifecycle.ReplayConcat` | internal/adapters/repository/mailbox_gorm.go:116-118 | the state after two journals in a row is the state after the second from the state after the first |
| `Lifecycle.PollStuck` | internal/core/service/mailbox_service.go:615-649 | a charge that failed ends its poll |
| `Challenge.ParseIntInverse` | internal/adapters/identity/edproof/challenge.go:94 | parsing undoes formatting for every 64-bit integer |
| `Challenge.HexInverse` | internal/adapters/identity/edproof/challenge.go:115 | decoding undoes encoding |
| `Challenge.SplitInvertsJoin` | internal/adapters/identity/edproof/challenge.go:84-88 | splitting at the first three dots is the inverse of joining, on dotless first parts |
| `TopMessages.IncrementedCount` | internal/platform/metrics/metrics.go:213-232 | an increment adds one to its own count, drops what is evicted and keeps the other counts |
| `Accounts.ExecSound` | internal/core/service/account_service.go:48-261 | every call keeps API tokens and e-mail addresses unique and tokens owned by stored accounts |
| `Accounts.ExecConserves` | internal/core/service/account_service.go:48-261 | one call keeps the balance of unused refresh tokens and completed recoveries |
| `MailboxServices.MailboxService.First` | internal/adapters/repository/mailbox_gorm.go:120-130 | the first row with a key, or none |
| `MailboxServices.MailboxService.ListRows` | internal/adapters/repository/mailbox_gorm.go:159-240 | the positions of the selected rows |
| `MailboxServices.MailboxService.Save` | internal/adapters/repository/mailbox_gorm.go:116-118 | a full-row write, refused by a unique index or a failure |
| `MailboxServices.MailboxService.Add` | internal/adapters/repository/mailbox_gorm.go:112-114 | an insert, refused by a unique index or a failure |
| `MailboxServices.MailboxService.EnsureMailbox` | internal/adapters/repository/mail_runtime_gorm.go:22-44 | the login is enabled, unless it fails |
| `MailboxServices.MailboxService.DisableMailbox` | internal/adapters/repository/mail_runtime_gorm.go:46-51 | the login is not enabled, unless it fails |
| `MailboxServices.MailboxService.MarkMailboxPaid` | internal/core/service/mailbox_service.go:440-523 | markMailboxPaid: performs exactly the journal of the call, with its result, failing at any port call |
| `MailboxServices.MailboxService.RenewFromCharge` | internal/core/service/mailbox_service.go:622-645 | the renewal of a charge: performs exactly the journal of the call, with its result, failing at any port call |
| `MailboxServices.MailboxService.CreditOne` | internal/core/service/mailbox_service.go:611-651 | one charge of a poll: performs exactly the journal of the call, with its result, failing at any port call |
| `MailboxServices.MailboxService.ReconcileOpenCollectivePayments` | internal/core/service/mailbox_service.go:599-654 | the poll and its count: performs exactly the journal of the call, with its result, failing at any port call |
| `MailboxServices.MailboxService.ReconcilePendingPayments` | internal/core/service/mailbox_service.go:659-713 | the pending reconciler with its report, one result for each row: performs exactly the journal of the call, with its result, failing at any port call |
| `MailboxServices.MailboxService.ReconcilePendingRow` | internal/core/service/mailbox_service.go:669-711 | one row of it: result, and the payment when the session is confirmed |
| `MailboxServices.MailboxService.ExpireMailbox` | internal/core/service/mailbox_service.go:558-566 | expireMailbox, the login before the row: performs exactly the journal of the call, with its result, failing at any port call |
| `MailboxServices.MailboxService.ExpireMailboxes` | internal/core/service/mailbox_service.go:718-741 | the sweep and its count: performs exactly the journal of the call, with its result, failing at any port call |
| `MailboxServices.MailboxService.DisableExpiredMailboxes` | internal/core/service/mailbox_service.go:744-761 | the second sweep and its count: performs exactly the journal of the call, with its result, failing at any port call |
| `MailboxServices.MailboxService.NewActivationToken` | internal/core/service/mailbox_service_free.go:22-34 | the row with the new token, its lifetime, and no session |
| `MailboxServices.MailboxService.IssueActivationLink` | internal/core/service/mailbox_service_free.go:53-62 | row before mail, and the row issued: performs exactly the journal of the call, with its result, failing at any port call |
| `MailboxServices.MailboxService.ActivateMailbox` | internal/core/service/mailbox_service.go:391-433 | activation by token, with the mailbox and whether it was active already: performs exactly the journal of the call, with its result, failing at any port call |
| `MailboxServices.MailboxService.SwitchoverToFreeMode` | internal/core/service/mailbox_service.go:769-818 | the switchover and its three counts, mail before row: performs exactly the journal of the call, with its result, failing at any port call |
| `MailboxServices.MailboxService.ClearActiveExpiries` | internal/adapters/repository/mailbox_gorm.go:241-252 | clears the expiry of exactly the active rows and counts them |
| `MailboxServices.MailboxService.ClaimMailboxForKey` | internal/core/service/mailbox_service.go:125-269 | a claim, the mailbox it returns and whether it is new: performs exactly the journal of the call, with its result, failing at any port call |
| `MailboxServices.MailboxService.ReclaimMailbox` | internal/core/service/mailbox_service.go:150-212 | a claim of a key with a mailbox: performs exactly the journal of the call, with its result, failing at any port call |
| `MailboxServices.MailboxService.ReconcileOnClaim` | internal/core/service/mailbox_service.go:569-587 | the cooled-down poll of a claim: performs exactly the journal of the call, with its result, failing at any port call |
| `MailboxServices.MailboxService.RecordCheckout` | internal/core/service/mailbox_service.go:172-211 | the checkout recorded on the copy read at the start: performs exactly the journal of the call, with its result, failing at any port call |
| `MailboxServices.MailboxService.CreateMailboxFor` | internal/core/service/mailbox_service.go:285-365 | creation for an account, with the mailbox and whether it is new: performs exactly the journal of the call, with its result, failing at any port call |
| `MailboxServices.MailboxService.AddPending` | internal/core/service/mailbox_service_free.go:66-75 | a new pending row with its link or checkout: performs exactly the journal of the call, with its result, failing at any port call |
| `MailboxServices.MailboxService.ResolveAccessByKey` | internal/core/service/mailbox_service.go:907-948 | access by key over a supported protocol, with the ID, login and token of the row and the login enabled: performs exactly the journal of the call, with its result, failing at any port call |
| `MailboxServices.MailboxService.ValidateMailboxSubscription` | internal/core/service/mailbox_service.go:824-873 | the check whose passes and writes Access.ChecksEntitled states: performs exactly the journal of the call, with its result, failing at any port call |
| `MailboxServices.MailboxService.ResolveAccessByToken` | internal/core/service/mailbox_service.go:875-900 | access by token over a supported protocol, with the ID, login and token of the row and the login enabled: performs exactly the journal of the call, with its result, failing at any port call |
| `MailboxServices.MailboxService.RenewMailbox` | internal/core/service/mailbox_service.go:525-541 | the administrative renewal: performs exactly the journal of the call, with its result, failing at any port call |
| `MailboxServices.MailboxService.ExpireMailboxById` | internal/core/service/mailbox_service.go:543-555 | the administrative expiry: performs exactly the journal of the call, with its result, failing at any port call |
| `MailboxServices.MailboxService.ReprovisionMailbox` | internal/core/service/mailbox_service.go:1045-1095 | the administrative creation or reset: performs exactly the journal of the call, with its result, failing at any port call |
| `ChargeFeed.SingleMailboxTag` | internal/adapters/payment/opencollective_gateway.go:209-221 | finds a tag exactly when one tag has the prefix, and then that one |
| `ChargeFeed.SortByTime` | internal/adapters/payment/opencollective_gateway.go:159 | a sorted permutation |
| `HourCounter.Counter.Add` | internal/platform/metrics/metrics.go:37-49 | adds to the bucket of the current hour, and stays the play of everything done to it |
| `HourCounter.Counter.Sum24h` | internal/platform/metrics/metrics.go:51-60 | all that was added in the current hour slot and the 23 before it |
| `HourCounter.Counter.Rotate` | internal/platform/metrics/metrics.go:62-89 | clears exactly the buckets of hours that came round since, sets the hour, and stays the play of everything done to it |
| `LatencyHistogram.Histogram.Observe` | internal/platform/metrics/metrics.go:99-113 | the buckets count the observations made, with the new one |
| `LatencyHistogram.Histogram.PercentileOf` | internal/platform/metrics/metrics.go:115-149 | the percentile of everything observed that PercentileBetween and PercentileOfAny give |
| `LatencyHistogram.Histogram.ValueAtIndex` | internal/platform/metrics/metrics.go:159-174 | the value ValueAtIsOrderStatistic speaks of |
| `TopMessages.TopN.Inc` | internal/platform/metrics/metrics.go:200-233 | map and list stay linked, and the contents stay the table of all messages counted, each cut to 200 characters |
| `TopMessages.TopN.Snapshot` | internal/platform/metrics/metrics.go:235-253 | a ranking of exactly the entries of the most recently counted messages, in whatever order the map is read |
| `SshWire.BuildSignedData` | internal/adapters/identity/edproof/challenge.go:279-287 | the signed data, string by string |
| `Accounts.AccountService.CreateAccount` | internal/core/service/account_service.go:48-82 | performs the writes of the call, up to the port that fails, and says whether a pair was issued |
| `Accounts.AccountService.RefreshAccess` | internal/core/service/account_service.go:84-126 | spends the token before anything new is written, then performs the exchange up to the port that fails |
| `Accounts.AccountService.StartRecovery` | internal/core/service/account_service.go:128-148 | limits, drops the unused codes of the account and stores a new one, up to the port that fails, with the answer it gives |
| `Accounts.AccountService.CreateAndSendCode` | internal/core/service/account_service.go:217-242 | old codes dropped before the new one is stored, the mail last |
| `Accounts.AccountService.CompleteRecoveryByToken` | internal/core/service/account_service.go:150-192 | spends the code before anything new is written, then performs the exchange up to the port that fails |
| `Support.SupportDesk.CountRecentByFingerprint` | internal/adapters/repository/support_message_gorm.go:48-55 | counts the messages of a key since an instant |
| `Support.SupportDesk.SendSupportMessage` | internal/core/service/mailbox_service.go:1144-1190 | looks the key up, counts, stores and mails as the limit says; a mail that fails leaves the message stored |

## Left out

- HTTP handlers, JSON, pages, notifiers, IMAP client, journald shipper, configuration, Stripe and mock transports, `cmd/pulse`: input and output without an invariant of their own.
- Host, port, password, creation and update times, log lines and metrics of a mailbox call, and the e-mail addresses stored in a row: no branch modelled here depends on them. The legacy IMAP host rewrite is left out with them.
- A port call that fails has no effect. A write that commits and still reports an error is not modelled; a switchover would then have stored a token that it does not count, and a poll would have moved a cursor that it does not report.
- The algorithm of a verified key, which only has to be present.
- Clocks: a service call sees one instant, except the support message, which reads the clock twice.
- The provisioner and both repositories are always configured; their absence is a start-up error.
- Lookups that several rows match (an empty payment session, several pending rows of an account) take the first row in table order, and lists are in table order; SQL leaves the order of some of them open.
- `hashToken` and `checkoutTag` are injective stand-ins: tokens stand for their hashes, and the tag is the prefix with the mailbox ID. Trimming and lower-casing are identities on normal inputs.
- Read-only mailbox calls and the message reads after access was granted.
- Interleavings of the reconciler with sweeps and claims, which save whole rows from copies without its mutex: only polls against polls are interleaved.
- A charge that appears late with a time at or before the cursor is skipped by the code, so the feeds of `ConcurrentPolls` and `PollConvergence` are related by `ShowsPartOf`; `ChargeFeed.GrowingFeedShowsPart` says when real feeds are.
- FreeActivation.PermanentForever: excludes administrative renewals, expiries and reprovisioning, which overwrite any row, and rows with a `tva-` session, for the reason in `FreeActivation.PermanentIffUntagged`.
- PollConvergence.PollsConverge: key-bound rows only; `AccountPolls.AccountsConverge` has all rows and their accounts, for feeds that are prefixes of one another.
- Revocation.ExpiredNeverEnabled: key-bound rows only; an account-bound row is enabled by its account's subscription. `Revocation.DisableExpiredRevokes` covers both kinds.
- ChargeFeed.OpenCollectiveGateway.ListPaidCharges: the remote list does not change between pages, a lost page is any failure of `fetchPage`, and the library sort is an insertion.
- HourCounter.SumIsSlidingWindow: counters made after the first hour of 1970, unbounded integers for 64-bit ones, and calls one at a time.
- LatencyHistogram.PercentileMonotone: reals for floating-point numbers, so rounding of the interpolation is not captured; calls one at a time.
- TopMessages.TopN.Inc: messages without surrounding white space, characters for runes, and calls one at a time; a list element is its position in the list.
- SshWire.ReadInvertsWrite: buffers below 2^32 bytes, where the uint32 lengths of the code are exact.
- Challenge.RoundTrip: durations and instants are unbounded, so the saturation of `time.Duration` after 292 years is not captured; splitting a key line into fields is an input.
- Onboarding.ClaimServes: in paid mode a row that the claim's own poll credited with a charge too old to make it usable is active and past due, with the checkout still in it.
- MailboxServices.MailboxService.ReconcilePendingPayments: error texts are not modelled, only that there was an error.
- Accounts: recovery codes are taken to be unique, as random ones are; the kinds of errors of the other calls are one.
- OverlappingExchanges.ExchangedAtMostHeld: no later recovery draws a code again that was drawn before; calls that are no exchanges run as one step.
