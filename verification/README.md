# A verified model of the skcomms messaging node

Twenty-eight Dafny modules model the decisions of an skcomms node and prove properties of them over every
input and every history. The node's stores (nonce caches, membership tables, captcha rows, acknowledgment
files, the durable outbox, contacts, request queues, greylists, token tables, directory trees) are maps
that the classes change in place; every method that changes them is proved against a function from old
state to new, and the theorems are lemmas about histories of that function.

- `Common`, `Text`, `Hex`, `Ordering`, `Messages`: values shared by the rest, the few string operations needed,
  stable sorting as a reference order, and the local message model.
- `ReplayGuard`: the signed-envelope accept gate of federation. It is replay-safe exactly while
  `max_age + max_skew + clock gap + jitter <= ttl`.
- `GroupPolicy`, `GroupCaptcha`, `GroupGate`: group membership by joins, invitations, approvals, blocks and
  captchas; who can be a member and why, what lifts a block, and how many captchas can admit.
- `AckTracker`, `DeliveryLedger`, `HeldSends`, `AutoAck`, `PriorityQueue`: sends, held deliveries, acknowledgments and
  their round trip, the timeout sweep, upkeep of the outbox, and the urgency order of what a poll hands on. The
  ledger refines one small machine for every held send.
- `Consent`, `ConsentPolicy`, `Tokens`, `BanFeeds`, `InboxNode`: first contact, the invite filter, capability tokens,
  ban feeds, and the node that composes them behind the inbox route.
- `Base64Url`, `AnonQueue`, `Padding`, `AnonTransport`: queue addresses, length hiding, the anonymous frame and
  its channels.
- `Compression`, `PayloadCrypto`, `MessageWire`: both ends of a message.
- `Discovery`, `OutboxDrain`: the merge of peer records, and the outbox recovery script.

`dafny verify dfyconfig.toml` checks all of it.

## Assumptions

SHA-256, HMAC, PGP, the hybrid KEM, gzip, zstd, base64 of payloads, UTF-8, JSON and Unicode case folding are
function arguments. What is assumed of them stands in `requires` clauses of the lemmas that need it: a MAC has
32 bytes, a decoder undoes its encoder, a key opens what was made for it and leaves the rest alone, a signature
stands for one text. Clocks, random draws, transport results and the environment are arguments too. Each
store operation is one transaction.

## What the code does, where its documentation says otherwise

- A nonce key is the sender and the nonce joined by one separator character, so a pair that holds that
  character can be refused as another pair's replay (`ReplayGuard.KeyNamesOnePairIff`).
- The comment at `src/skcomms/api.py:1317-1320` expects the sender's outbox retry to be admitted after a greylist
  deferral. The nonce is spent before the consent gate sees the envelope, so identical bytes are refused, as a
  replay while the timestamp is fresh and as stale afterwards. Only a fresh nonce gets in, and it is still deferred exactly until a repeat visit comes the
  delay after the first (`InboxNode.EnvelopeStoredAtMostOnce`, `InboxNode.DeferredIff`).
- An envelope whose recipient part is empty or unsafe, or whose sender is empty, is delivered without the ban
  gate (`InboxNode.BannedIsDroppedIff`).
- The token check is documented to fail closed on malformed input. For an issued contact a non-ASCII token raises
  in the constant-time comparison, and the gate around it then delivers (`Tokens.CheckRaisesIff`).
- `BLOCKED` at the group gate is also left by reconfiguring a group that is not persisted, which forgets its table
  (`GroupGate.BlockLiftedAtGateIff`). A captcha admits in any mode, and whoever answers it (`GroupGate.CaptchaAdmitsIff`).
  Approval and captcha admission make an owner a plain member (`GroupPolicy.ApprovalDemotesOwner`), so a group need not
  keep its owner; it does exactly while no such call, no other seating, no moderator's block and no reopening elsewhere
  occurs (`GroupGate.OwnerKeptIff`).
- Two identities made of spaces alone match each other, though empty ones match nothing (`AckTracker.SpacesMatchIff`).
- A hold refused by a full outbox leaves a tracked send that later times out with no alert
  (`DeliveryLedger.LapseAlertsIffHeld`), and a queued ACK-typed send is held but never tracked, so nothing but
  a purge releases it (`DeliveryLedger.UntrackedHoldStays`).
- `src/skcomms/outbox.py:766` moves a dead letter back to pending for retry, but keeps its `await_ack`. A held send that
  lapsed and was requeued is passed over by every retry, and its tracker entry is already resolved, so it stays pending
  until it is purged and nobody is told (`DeliveryLedger.RequeueRetriesIff`, `HeldSends.RequeuedIsStuck`).
- `send` takes an agent name, an fqid or a fingerprint as recipient (`src/skcomms/core.py:786`). The automatic
  acknowledgment goes out under the receiver's local name, so it confirms the send only when that name matches the text
  the message was addressed to, which a bare name never does for its own fqid (`AutoAck.AnswerReleasesIff`,
  `AutoAck.FqidNeedsFqid`). A receiver that could not decrypt the message acknowledges it all the same.
- A knock's id is the sender's to choose, and the queue inserts by id and ignores a taken one. A sender under the cap
  whose id another sender's knock holds is told that its message was stored, and it is never queued
  (`src/skcomms/consent.py:142-153`, `InboxNode.KnockQueuedIff`, `Consent.TakenIdLosesKnock`).
- A delivered envelope whose id is empty or starts with a dot is never polled: its file is named after the id, and the
  poll skips names that start with a dot (`src/skcomms/transports/file.py:431`, `InboxNode.InboxIs`).
- The consent mode is read loosely for "off" and exactly for "tailnet", so "Tailnet" is the public mode
  (`InboxNode.ModeSpellings`).
- Accepting through the pipeline leaves the sender's knocks in the queue (`InboxNode.AcceptsDiffer`).
- The address decoder takes any value in the bits beyond the sixteenth octet and the plain base64 characters, so an
  id has several addresses (`AnonQueue.EncodeDecodeAqidIff`).
- A hybrid seal binds the sender's local name, while the signed wire carries the fqid. When the two do not shorten
  to one name the receiver cannot open the payload (`PayloadCrypto.Readable`, `MessageWire.ShortNames`). A payload
  signature covers the compressed text, not the text the receiver ends with (`MessageWire.SignatureStandsIff`).
- In a peer record an empty text counts as missing, and a repeated transport name in a list loses all but its last
  settings when that list is the left side of a merge, so merging is not associative around it
  (`Discovery.MergeAssociativeIff`, `Discovery.HiddenSettingsBreakMerge`). Peers whose names differ only in unsafe characters share one
  file and merge into the first (`Discovery.PeerStore.Add`).
- The drain script promises that a dry run prints exactly what the real one would do (line 19). It does not when the
  active outbox is its own source: the dry run succeeds and counts, the real one is refused
  (`OutboxDrain.DryRunPredictsIff`, `OutboxDrain.DrainOntoItself`).
- In the drain script the `--ttl` argument is read nowhere, and the error count behind exit status 1 can never grow: a
  move either succeeds, is skipped, or raises (`OutboxDrain.FileSystem.Drain`).
- The HKDF loop has no length check of its own; its counter byte overflows past 255 blocks (`Tokens.HkdfSha256`).

## Model

| member | source | states |
|---|---|---|
| ReplayGuard.NonceCache.CheckAndAdd | src/skcomms/federation.py:68-82 | Evicts what is older than the TTL, then records the key with the clock exactly when it was absent; the whole new cache is given |
| ReplayGuard.DurableNonceCache.CheckAndAdd | src/skcomms/federation.py:137-150 | The delete-then-insert on the file does to its rows exactly what the in-memory cache does |
| ReplayGuard.DurableEqualsMemory | src/skcomms/federation.py:85-150 | After any calls, with any clock and any restarts, the rows on file are those of an in-memory cache that was never interrupted |
| ReplayGuard.DriveBoth | src/skcomms/federation.py:56-161 | Both caches driven through one sequence of calls and reopenings give the same answers and hold the same rows, those of the one specification |
| ReplayGuard.WinsIff | src/skcomms/federation.py:137-150 | Under any clocks a call is told its key is fresh exactly when no earlier call that was told so on that key is left unevicted by the calls after it, on whatever keys, up to and with this one |
| ReplayGuard.ExactlyOneWinner | src/skcomms/federation.py:137-150 | Of all calls on one key, by any processes in any commit order, whose clock readings with those of all other calls spread over no more than the TTL, exactly the first is told the key is fresh |
| ReplayGuard.CheckFreshness | src/skcomms/federation.py:174-190 | Refuses exactly a timestamp that does not parse, is older than the maximum age or further ahead than the skew |
| ReplayGuard.AcceptSigned | src/skcomms/federation.py:193-231 | Signature, then freshness, then nonce: the verdict and the new cache, for either cache |
| ReplayGuard.VerdictIff | src/skcomms/federation.py:193-231 | What each verdict means, for every attempt and cache: a signature error exactly for unsigned or unverified envelopes, stale exactly for verified ones outside the window, a replay exactly for timely ones whose key has a row no older than the TTL, accepted for all the rest, with the rows each leaves |
| ReplayGuard.AcceptedIff | src/skcomms/federation.py:193-231 | Over any run an attempt is accepted exactly when signed, verified and timely, and no earlier accepted attempt on its key is left unevicted |
| ReplayGuard.SeenExactly | src/skcomms/federation.py:221-231 | A row is in the cache exactly when an accepted attempt put it there and no admissible attempt has aged it out: forged and stale envelopes neither enter nor evict |
| ReplayGuard.AcceptsFarApart | src/skcomms/federation.py:64-82 | Two accepts of one key are more than a TTL apart on the cache clock, up to the jitter |
| ReplayGuard.ReplaySafeIff | src/skcomms/federation.py:33-37 | No clocked sequence of attempts accepts an envelope twice if and only if age + skew + clock gap + jitter fit in the TTL |
| ReplayGuard.ShortTtlDoubleAccepts | src/skcomms/federation.py:33-37 | Beyond the bound there is a sequence of three attempts that accepts one envelope twice |
| ReplayGuard.DefaultSlack | src/skcomms/federation.py:33-37 | The default constants are safe exactly while gap and jitter stay within 60 seconds |
| ReplayGuard.KeyNamesOnePairIff | src/skcomms/federation.py:74-82 | A cache key names one (sender, nonce) pair exactly when neither holds the separator character |
| GroupPolicy.GroupJoinPolicy.constructor | src/skcomms/consent_groups.py:94-126 | Opening the table re-reads it and seeds the configured owner |
| GroupPolicy.GroupJoinPolicy.RequestJoin | src/skcomms/consent_groups.py:210-241 | The new table and the outcome of a join request, by standing, mode and captcha answer |
| GroupPolicy.GroupJoinPolicy.Approve | src/skcomms/consent_groups.py:245-249 | Needs a moderator; makes the peer a plain member whatever it was |
| GroupPolicy.GroupJoinPolicy.BlockForAll | src/skcomms/consent_groups.py:258-266 | Needs a moderator; blocks the peer and clears its role |
| GroupPolicy.CanModerateIff | src/skcomms/consent_groups.py:270-276 | A moderator is a member stored as owner or moderator, and no one in particular is none |
| GroupPolicy.StandingIff | src/skcomms/consent_groups.py:192-266 | Where every call leaves the peer it is about, status by status in both directions, and that it changes no other row |
| GroupPolicy.RoleIff | src/skcomms/consent_groups.py:192-266 | The role a membership has after a call: the one seated, the owner's on seeding, plain on every other way in, and unchanged for a member let be |
| GroupPolicy.BlockBlocks | src/skcomms/consent_groups.py:258-266 | After a moderator's block the peer is blocked, no other row has changed, and its next join request is refused in every mode; anyone else's block is refused and changes nothing |
| GroupPolicy.ApplyKeepsRolesMatch | src/skcomms/consent_groups.py:130-137 | Every policy call keeps: a role is stored exactly for members |
| GroupPolicy.BlockLiftedIff | src/skcomms/consent_groups.py:192-266 | On the bare policy a block is lifted exactly by a seating, a re-seeding as owner, a moderator's approval, or a denial by no one in particular or a moderator |
| GroupPolicy.RefusalChangesNothing | src/skcomms/consent_groups.py:270-276 | PermissionError is raised exactly when a named actor is no moderator, and leaves the table as it was |
| GroupPolicy.OwnerLostIff | src/skcomms/consent_groups.py:192-266 | An owner stops being one exactly by a seating in another role, a moderator's approval, a denial by no one in particular or a moderator, or a moderator's block |
| GroupPolicy.ApprovalDemotesOwner | src/skcomms/consent_groups.py:245-249 | A witness: a group whose only owner becomes a plain member by approval of itself |
| GroupCaptcha.DeriveChallenge | src/skcomms/consent_captcha.py:72-112 | The id is 16 hex characters; prompt and answer are the wording of the challenge the digest draws and the decimal of what it asks, never negative and at most 81 |
| GroupCaptcha.DrawnIff | src/skcomms/consent_captcha.py:72-112 | Digests draw exactly the challenges over two digits from 1 to 9 with the larger first in a difference, all of them |
| GroupCaptcha.PromptTellsAnswer | src/skcomms/consent_captcha.py:72-112 | The prompt's text names the one sum whose decimal is the answer, so challenges that read alike are answered alike |
| GroupCaptcha.Captcha.Generate | src/skcomms/consent_captcha.py:158-179 | Stores the hashed answer with no attempts used, replacing any row under the id |
| GroupCaptcha.Captcha.Verify | src/skcomms/consent_captcha.py:181-235 | True exactly on a live challenge's right answer; the row ends on expiry, exhaustion, the pass and the last wrong guess |
| GroupCaptcha.PassedIff | src/skcomms/consent_captcha.py:181-235 | Over any interleaving and any clock a guess passes exactly when the last issue of its id stored this answer's hash less than its ttl ago and was met since by wrong guesses in time alone, fewer than it grants |
| GroupCaptcha.ChallengesConserved | src/skcomms/consent_captcha.py:158-235 | Over any interleaving and any clock: issued = live + replaced + passed + lapsed + exhausted, and wrong guesses + guesses still open <= attempts granted |
| GroupCaptcha.NoPassWithoutIssue | src/skcomms/consent_captcha.py:204-235 | An ended challenge answers no one until the id is issued again |
| GroupCaptcha.EndedChallenges | src/skcomms/consent_captcha.py:204-235 | A verify ends its row exactly unless it is a wrong guess with attempts to spare, and touches no other row |
| GroupGate.GroupConsentGate.ConfigureGroup | src/skcomms/consent_group_gate.py:114-138 | The group's new state, other groups untouched |
| GroupGate.GroupConsentGate.JoinDecision | src/skcomms/consent_group_gate.py:239-306 | The whole new state of the group and the reply, other groups untouched |
| GroupGate.GroupConsentGate.Admit | src/skcomms/consent_group_gate.py:308-364 | The whole new state of the group and the reply, other groups untouched |
| GroupGate.GroupConsentGate.InviteMember | src/skcomms/consent_group_gate.py:368-370 | The whole new state of the group and the reply, other groups untouched |
| GroupGate.GroupConsentGate.SeatMember | src/skcomms/consent_group_gate.py:372-374 | The whole new state of the group, other groups untouched |
| GroupGate.GroupConsentGate.BlockMember | src/skcomms/consent_group_gate.py:380-386 | The whole new state of the group and the reply, other groups untouched |
| GroupGate.RolesMatchAlways | src/skcomms/consent_group_gate.py:239-386 | In every history of a group a role is stored exactly for members |
| GroupGate.BlockLiftedAtGateIff | src/skcomms/consent_group_gate.py:266-271 | One gate call lifts a block exactly when it seats the peer, seeds it as owner, or reopens the group on another table |
| GroupGate.BlockStandsIff | src/skcomms/consent_group_gate.py:239-386 | In every history of every group, persisted or not, a block stands exactly while no call lifts it in that sense |
| GroupGate.BlockedWhileOpen | src/skcomms/consent_group_gate.py:266-271 | Without a restart or a reconfiguration only a direct seating lifts a block |
| GroupGate.BlockBlocksAtGate | src/skcomms/consent_group_gate.py:380-386 | After a moderator's block at the gate the peer is blocked and no other row has changed; anyone else's is refused and changes nothing |
| GroupGate.BlockedIff | src/skcomms/consent_group_gate.py:239-386 | In every run of every group, reopenings included, a peer is blocked exactly when it was at the start or a call imposed a block (a moderator's, or reopening over a table that holds it) and no later call has lifted it |
| GroupGate.BlockedIsAbsorbing | src/skcomms/consent_group_gate.py:342-347 | A corollary for persisted groups: restarts and reconfigurations that stay persisted and do not name the peer as owner leave it BLOCKED too |
| GroupGate.BlockedPeerKeepsOut | src/skcomms/consent_group_gate.py:342-347 | An admit for a blocked peer answers BLOCKED and neither honours nor consumes the challenge |
| GroupGate.CaptchaAdmitsIff | src/skcomms/consent_group_gate.py:349-360 | A captcha admits exactly someone not blocked who answers what the live row under the id holds, in time and with attempts left; mode and the peer it was issued to play no part |
| GroupGate.AnswerAdmitsIff | src/skcomms/consent_group_gate.py:349-360 | In every run an answer admits exactly when its peer is not blocked and the last challenge issued under the id was for this answer, is in time, and has attempts left |
| GroupGate.AdmissionWasEarned | src/skcomms/consent_group_gate.py:286-360 | Behind every captcha admission stands an earlier join that was given the challenge, less than the ttl before, whose answer this is |
| GroupGate.JoinRepliesIff | src/skcomms/consent_group_gate.py:239-306 | What a join is answered, exactly, by standing and configuration, and that the joiner is left in the status answered |
| GroupGate.UnknownGroupIsStrict | src/skcomms/consent_group_gate.py:239-271 | A group nobody configured denies a stranger's join, and a restart forgets every configuration but no stored table |
| GroupGate.NewMemberIsGranted | src/skcomms/consent_group_gate.py:239-374 | A call that makes a member is one of the granting calls, with that role |
| GroupGate.AdmitsExactlyWhenGranted | src/skcomms/consent_group_gate.py:239-374 | A call makes a non-member a member exactly when it seats, is an invited or open uncaptchaed join, a moderator's approval or a passed captcha, and with that role |
| GroupGate.MembershipProvenance | src/skcomms/consent_groups.py:123-266 | Every membership goes back to the call that granted it and has stood since: owner seeding or seating for owners and moderators; seating, accepted invitation, open join, approval by a then moderator or a passed captcha for plain members |
| GroupGate.InvitationProvenance | src/skcomms/consent_groups.py:196-206 | A standing invitation goes back to an invite by no one in particular or by a then moderator, and has stood since |
| GroupGate.JoinsNeverPromote | src/skcomms/consent_group_gate.py:261-364 | No join and no admit yields a role above plain member, nor changes another peer's role |
| GroupGate.OwnerLostAtGateIff | src/skcomms/consent_group_gate.py:308-386 | A gate call ends an ownership exactly when it seats the owner in another role, admits it by a moderator or a passed captcha, blocks it by a moderator, or reopens the group where it is neither stored nor seeded as owner |
| GroupGate.OwnerKeptIff | src/skcomms/consent_group_gate.py:114-386 | In every history of every group an owner stays one exactly while no such call occurs |
| GroupGate.CaptchaTraceMatches | src/skcomms/consent_group_gate.py:286-360 | The gate's captcha store and its counts of challenges and captcha admissions are those of the captcha calls it makes |
| GroupGate.CaptchaAdmissionsBounded | src/skcomms/consent_group_gate.py:286-360 | In every history of a group captcha admissions plus live challenges never exceed challenges issued |
| AckTracker.MatchesIsPartialEquivalence | src/skcomms/ack.py:139-155 | Identity matching is symmetric, transitive, reflexive exactly off the empty string, and blind to spacing |
| AckTracker.MatchesBlindToCase | src/skcomms/ack.py:139-155 | Identities that differ in letter case alone match |
| AckTracker.SpacesMatchIff | src/skcomms/ack.py:139-155 | An identity of spaces alone matches exactly the other non-empty identities of spaces |
| AckTracker.MatchesIff | src/skcomms/ack.py:139-155 | Under a one-letter fold identities match exactly when both are non-empty and, spaces aside, equally long and alike but for case at every place |
| AckTracker.AckTracker.Track | src/skcomms/ack.py:111-136 | A trackable message starts a pending entry with its deadline, over any older one; others leave no mark |
| AckTracker.AckTracker.ProcessAck | src/skcomms/ack.py:157-249 | Confirms exactly a pending entry, from a sender equivalent to its recipient, past the authenticity checks; the whole new table |
| AckTracker.ConfirmsIff | src/skcomms/ack.py:157-249 | An acknowledgment confirms exactly a pending entry of the id in its text, from a sender of the recipient's letters, vouched for; any other arrival leaves every entry as it was |
| AckTracker.AckTracker.CheckTimeouts | src/skcomms/ack.py:293-307 | Marks exactly the pending entries past their deadline and lists them in order |
| AckTracker.LapsingOrder | src/skcomms/ack.py:293-307 | The lapsed ids come in the order of the listing |
| AckTracker.AckTracker.PurgeConfirmed | src/skcomms/ack.py:309-328 | Deletes exactly the confirmed entries older than the age, and counts them |
| AckTracker.PurgedIff | src/skcomms/ack.py:309-328 | A purge deletes exactly the entries confirmed longer ago than the age |
| AckTracker.ResolvedStays | src/skcomms/ack.py:184-249 | A resolved or missing entry never changes, revives or confirms until its id is tracked again |
| AckTracker.ConfirmedOncePerTrack | src/skcomms/ack.py:184-249 | Between two track calls for an id at most one acknowledgment confirms it |
| AckTracker.StatusChangesIff | src/skcomms/ack.py:184-307 | A status changes exactly by an authentic acknowledgment of a pending entry or past its deadline |
| DeliveryLedger.SKComms.Send | src/skcomms/core.py:757-945 | The tracker, the outbox and the alerts after a send, by the router's report, broadcast and outbox bound |
| DeliveryLedger.FailedSendQueued | src/skcomms/core.py:899-933 | A send no rail took is queued for retry and reported, but for a broadcast, which is only reported, and for a full outbox, which is raised |
| DeliveryLedger.DeliveredSendIs | src/skcomms/core.py:934-943 | A send some rail took is tracked when it asks for an acknowledgment and is none itself, held when besides only a queue took it and there is room, and a broadcast leaves no mark |
| DeliveryLedger.SendKeepsBound | src/skcomms/core.py:903-913 | No send grows the pending queue past its bound |
| DeliveryLedger.RetryIff | src/skcomms/outbox.py:476-500 | A retry pass resolves exactly the entries that wait for no acknowledgment, as their attempt went |
| DeliveryLedger.SKComms.HoldQueuedDelivery | src/skcomms/core.py:1011-1063 | Holds a queued-only send that asked for an acknowledgment; a full outbox alerts instead |
| DeliveryLedger.SKComms.SweepAckTimeouts | src/skcomms/core.py:1089-1129 | Dead-letters and reports exactly the lapsed sends that are still held |
| DeliveryLedger.SKComms.Receive | src/skcomms/core.py:1209-1266 | Acknowledgments release holds, then the sweep, then the surviving messages in stable urgency order |
| DeliveryLedger.PriorityOrders | src/skcomms/models.py:138-143 | Priorities order the four urgencies, critical first, and tell them apart |
| DeliveryLedger.UrgentFirst | src/skcomms/core.py:1256-1266 | In what a poll hands on no message stands behind a less urgent one |
| DeliveryLedger.HandedOnIff | src/skcomms/core.py:1222-1266 | A poll hands on exactly the messages of its readable items that have not expired |
| HeldSends.StepFollows | src/skcomms/core.py:757-1266 | Refinement: every call that does not send the id again takes a tracked send where its own machine says, whatever other traffic the call carries |
| HeldSends.PollSettles | src/skcomms/core.py:1231-1255 | One poll settles a waiting send: status confirmed at the poll's time, hold released, no alert, when the poll carries its acknowledgment, whatever the deadline says; otherwise timed out and dead-lettered with one alert past the deadline; otherwise still waiting |
| HeldSends.StrangersCannotConfirm | src/skcomms/ack.py:184-215 | Acknowledgments from senders of other letters than the recipient leave the send waiting and held; its deadline alone decides |
| HeldSends.HeldSendIs | src/skcomms/core.py:934-943 | In every history, upkeep included, a held send with a fresh id stands at exactly one spot, the one its machine computes from the calls alone: its tracker entry, its place and its alerts |
| HeldSends.HeldSendTrichotomy | src/skcomms/core.py:934-943 | While no upkeep names a held send: it waits exactly when no poll carried its acknowledgment and no sweep found its deadline passed; is dead-lettered with one alert exactly when the first call to decide was the deadline's; confirmed and released exactly when it was the acknowledgment's and no purge removed it since; gone exactly when one did. Under any upkeep it alerts at most once, and confirmed means that a poll carried its acknowledgment |
| HeldSends.SettledIsFinal | src/skcomms/core.py:1089-1129 | A confirmed send stays confirmed, released and unalerted under every operation exactly until its confirmation is purged or untracked, and then leaves no mark; dead-lettered is left exactly when upkeep names the dead letter, and is never entered again |
| DeliveryLedger.RequeueRetriesIff | src/skcomms/outbox.py:765-796 | A dead letter moved back for retry is resolved by the next retry pass exactly when it waits for no acknowledgment and the pass would resolve it |
| HeldSends.RequeuedIsStuck | src/skcomms/outbox.py:765-796 | A requeued held send stays pending exactly until the pending queue is purged, which discards it: no retry, sweep or acknowledgment touches it, and it never alerts again |
| DeliveryLedger.SKComms.RequeueDead | src/skcomms/outbox.py:765-796 | Moves exactly the named dead letters (all of them without an id, or with an empty one) back to pending as they are, and counts them |
| DeliveryLedger.SKComms.PurgeDead | src/skcomms/outbox.py:644-660 | Deletes exactly the named dead letter, or all of them without an id, and counts them |
| DeliveryLedger.SKComms.PurgePending | src/skcomms/outbox.py:636-642 | Empties the pending queue and counts what was in it |
| DeliveryLedger.SKComms.Untrack | src/skcomms/ack.py:330-343 | Deletes the tracker entry of one id and says whether there was one |
| DeliveryLedger.LapseAlertsIffHeld | src/skcomms/core.py:1105-1129 | A lapse is reported exactly when the send was held: a hold refused by a full outbox times out in silence |
| DeliveryLedger.HeldSendTrackedIff | src/skcomms/core.py:934-943 | A queued send that asks for an acknowledgment and finds room is held whatever its type, and tracked exactly when it is not itself an acknowledgment |
| DeliveryLedger.UntrackedHoldStays | src/skcomms/core.py:1036-1051 | A queued ACK-typed send is held but tracked by nothing, and stays so exactly until the pending queue is purged or an older dead letter of its id that waits for no acknowledgment is requeued over it |
| HeldSends.UnsentIsAbsent | src/skcomms/core.py:757-945 | An id leaves no mark anywhere before its first send |
| AutoAck.AnswerArrives | src/skcomms/core.py:1317-1339 | An automatic acknowledgment arrives as one, under the answering node's local name; its text is the id it answers when it can be read, the ciphertext when not; it carries the thread and asks for no answer itself |
| AutoAck.AnswerConfirmsIff | src/skcomms/models.py:229-256 | The answer to a tracked send confirms it exactly when the first sender can read the answer, the answering node's local name matches the tracked recipient, and the verifier vouches; whether the message itself could be read plays no part |
| AutoAck.AnswerReleasesIff | src/skcomms/core.py:1231-1238 | In the ledger: the poll that brings the answer confirms and releases the held send under exactly that condition, and otherwise the deadline decides |
| AutoAck.FqidNeedsFqid | src/skcomms/ack.py:139-155 | An fqid never matches the bare name in it, so a send tracked under the fqid is confirmed by no answer under the name |
| PriorityQueue.MessagePriorityQueue.Push | src/skcomms/core.py:71-78 | Appends to the arrival list under the next counter, the heap staying valid |
| PriorityQueue.MessagePriorityQueue.Pop | src/skcomms/core.py:80-90 | Yields the first-arrived of the most urgent entries and removes it alone; empty is an IndexError |
| PriorityQueue.MessagePriorityQueue.Drain | src/skcomms/core.py:92-101 | Yields the stable sort of what was waiting and leaves nothing |
| PriorityQueue.PopAllIsStableSort | src/skcomms/core.py:92-101 | Repeated least-first removal is the stable sort by priority |
| PriorityQueue.LeastIsFirstMin | src/skcomms/core.py:57-90 | The heap's root is the entry the arrival order would give up next |
| PriorityQueue.FifoPerPriority | src/skcomms/core.py:57-101 | In every interleaving of push, pop and drain each priority comes out in arrival order, across earlier drains |
| PriorityQueue.RunConserves | src/skcomms/core.py:57-101 | What came out and what waits are together what was pushed |
| PriorityQueue.DriveQueue | src/skcomms/core.py:57-101 | One queue object driven through any pushes, pops and drains hands out what the run specification says, in that order, and holds what it leaves waiting |
| Ordering.StableSortUnique | src/skcomms/core.py:57-66 | Whatever is sorted and keeps ties in order is the stable sort: the reference order is the only one |
| Consent.ContactStore.Unblock | src/skcomms/consent_requests.py:124-144 | Removes a blocked contact's row and no other |
| Consent.RequestQueue.Enqueue | src/skcomms/consent.py:142-153 | Adds a knock exactly when its id is new and the sender under the cap, and answers whether the sender was under it |
| Consent.RequestQueue.AcceptRequest | src/skcomms/consent.py:166-170 | Makes the sender known and clears its knocks |
| Consent.RequestQueue.DeclineRequest | src/skcomms/consent.py:172-179 | Clears the sender's knocks, and blocks it when asked to |
| Consent.EnqueueKeepsCap | src/skcomms/consent.py:142-153 | An enqueue adds one knock exactly for a new id of a sender under the cap, and never lifts anyone above it |
| Consent.TakenIdLosesKnock | src/skcomms/consent.py:142-153 | A witness: a first knock under an id that another sender's knock holds is answered as queued, and the queue does not change |
| Consent.Greylist.See | src/skcomms/consent_greylist.py:92-128 | The sender's new row and whether this visit is admitted |
| Consent.AdmittedIff | src/skcomms/consent_greylist.py:111-128 | Over any visits and any clock a visit is admitted exactly when it or an earlier repeat visit of its sender came at least the delay after the first |
| InboxNode.Gateway.ConsentClassify | src/skcomms/api.py:1207-1267 | The decision and the agent's stores after it, ban gate first in every mode, friction by the tier of an unvouched sender, a raising stage delivering; other agents untouched |
| InboxNode.Gateway.WriteToRecipientInbox | src/skcomms/api.py:1270-1349 | Deliver goes to the inbox, quarantine to the request queue, drop and defer nowhere; no other agent's state changes |
| InboxNode.Gateway.PostInbox | src/skcomms/api.py:1356-1433 | Size, shape, rate, accept gate, then consent: the reply and the whole new node state |
| InboxNode.Gateway.Accept | src/skcomms/consent_requests.py:59-74 | The node after an operator accepts a request |
| InboxNode.Gateway.PipelineAccept | src/skcomms/consent_pipeline.py:124-127 | The node after the pipeline accepts: known and issued a token |
| InboxNode.Gateway.DeclineRequest | src/skcomms/consent_requests.py:77-95 | The node after an operator declines, blocking or not |
| InboxNode.Gateway.BlockContact | src/skcomms/consent_requests.py:98-109 | The node after an operator blocks a sender |
| InboxNode.Gateway.UnblockContact | src/skcomms/consent_requests.py:124-144 | The node after an operator unblocks a sender |
| InboxNode.Gateway.Poll | src/skcomms/transports/file.py:410-448 | A poll hands on the recipient's visible envelopes in listing order and takes exactly those out of the inbox |
| InboxNode.NoncesAreSeen | src/skcomms/api.py:1409-1424 | A node's nonce file is that of its accept gate alone; a post is stored exactly when the gate accepts it |
| InboxNode.StoredIff | src/skcomms/api.py:1356-1433 | A post is stored exactly when it is within size, shape and rate, signed, verified and timely, and no earlier stored post on its sender and nonce is left unevicted |
| InboxNode.RefusalIff | src/skcomms/api.py:1356-1433 | What each of the six refusals means |
| InboxNode.EnvelopeStoredAtMostOnce | src/skcomms/api.py:1409-1424 | Across restarts and operator calls, under the replay bound, one envelope passes the gate at most once; sent again, deferred ones included, it changes no store, and a signed valid one is a replay while it is fresh and stale afterwards |
| InboxNode.ContactStateIff | src/skcomms/consent.py:56-84 | In every history a sender is known exactly when accepted and not blocked since, blocked exactly when blocked and neither accepted nor unblocked since |
| InboxNode.PublicDeliveryIff | src/skcomms/consent_pipeline.py:83-122 | In public mode an envelope past the accept gate is delivered exactly when no signed and verifying feed bans its sender, which does not stand blocked, the invite policy allows it, the sender stands accepted, and any token it shows is one the agent has issued it and derives for it, or raises the comparison; a stage that raises when reached delivers |
| InboxNode.PublicFirstContactIff | src/skcomms/consent_pipeline.py:113-122 | In public mode, no stage raising, an allowed sender that stands neither accepted nor blocked is deferred exactly when it is greylisted and no repeat visit, this one included, came at least the delay after its first; otherwise quarantined |
| InboxNode.OtherModesDeliverIff | src/skcomms/api.py:1249-1267 | With consent off everything past the ban gate is delivered; on a tailnet exactly what the invite policy allows, and everything when the policy stage raises |
| InboxNode.ModeSpellings | src/skcomms/api.py:1233-1264 | The tailnet mode is on exactly under the spelling `tailnet`; consent is off exactly for blank text and any casing of `off`; everything else, other casings of `tailnet` included, is public |
| InboxNode.FrictionalIff | src/skcomms/consent_tiering.py:70-126 | Unknown senders are greylisted unless the override for anonymous senders says not |
| InboxNode.StoredWhere | src/skcomms/api.py:1308-1349 | An inbox changes exactly on deliver, under the recipient and the envelope's id; a request queue only on quarantine, and then as an enqueue of that knock does |
| InboxNode.KnockQueuedIff | src/skcomms/consent.py:142-153 | A quarantined knock is queued exactly when its sender is under the cap and no knock of anyone holds its id; the sender is told it was stored either way |
| InboxNode.InboxIs | src/skcomms/transports/file.py:419-448 | In every history an envelope stands in an inbox exactly from its delivery until the recipient's next poll or a later delivery under the same id, whoever sends it; no poll takes one whose id is empty or starts with a dot |
| InboxNode.BannedIsDroppedIff | src/skcomms/api.py:1233-1264 | A sender that a signed and verifying feed bans, or that stands blocked, is dropped in every mode with any token exactly when both identities are present; otherwise the envelope is delivered |
| InboxNode.QueueStaysCapped | src/skcomms/consent.py:142-153 | In every history no sender has more knocks queued than the cap |
| InboxNode.AcceptsDiffer | src/skcomms/consent_pipeline.py:124-127 | Both accepts make the same contact; only the request queue's clears knocks and only the pipeline's issues a token |
| InboxNode.KnocksClearedIff | src/skcomms/consent.py:166-179 | Accepting or declining from the queue clears that sender's knocks at that agent, and no operator call touches any other knock |
| InboxNode.IssuedIff | src/skcomms/consent_pipeline.py:124-127 | An agent has issued a sender a token exactly when its pipeline has accepted the sender |
| InboxNode.SightingsAre | src/skcomms/consent_greylist.py:92-128 | An agent's greylist is the one the greylisted posts of the history make |
| InboxNode.DeferredIff | src/skcomms/consent_greylist.py:111-128 | A greylisted post is deferred exactly when neither it nor an earlier repeat visit of its sender to that agent came at least the delay after the first |
| InboxNode.DeferralEnds | src/skcomms/consent_greylist.py:111-128 | A post under a fresh nonce at least the delay after the sender's first deferral is not deferred |
| InboxNode.FirstSightingKept | src/skcomms/consent_greylist.py:92-128 | A sender's first sighting is never moved |
| InboxNode.AgentsAreIsolated | src/skcomms/api.py:1270-1349 | A step that does not name an agent leaves all its stores and its inbox as they were |
| InboxNode.RecipientIsSafe | src/skcomms/api.py:1285-1299 | The recipient is empty or one path component without address punctuation or outer blanks |
| InboxNode.RecipientIs | src/skcomms/api.py:1285-1299 | A realm, a scheme in front and outer blanks are taken off an address, and what is left is the recipient when it is safe as one path component; otherwise there is none |
| BanFeeds.SigningOrderFreeIff | src/skcomms/consent_banfeeds.py:94-111 | The signed bytes are the same for every order of the entries exactly when no entity has two different entries |
| BanFeeds.ServerGlobIff | src/skcomms/consent_banfeeds.py:164-176 | `*@server` matches exactly what ends in `@server`; an entity without wildcards matches itself alone |
| BanFeeds.StarLaw | src/skcomms/consent_banfeeds.py:164-176 | A star matches any stretch, whatever pattern follows |
| BanFeeds.GlobLaws | src/skcomms/consent_banfeeds.py:164-176 | A question mark matches one character, a letter itself, the empty pattern the empty text |
| BanFeeds.ClassLaw | src/skcomms/consent_banfeeds.py:164-176 | A class of plain letters matches one of them, a negated one any other character |
| BanFeeds.RangeLaw | src/skcomms/consent_banfeeds.py:164-176 | A range matches the characters from its first to its last, both included |
| BanFeeds.FirstMatch | src/skcomms/consent_banfeeds.py:164-176 | The first ban entry that matches, or none exactly when none does |
| BanFeeds.FeedSubscription.Subscribe | src/skcomms/consent_banfeeds.py:210-232 | Takes a feed exactly when it is signed and verifies |
| BanFeeds.BuildSubscription | src/skcomms/consent_runtime.py:148-178 | A node's subscription is what its pinned publishers' feeds come to, unsigned and unverified ones left out |
| BanFeeds.FeedSubscription.IsBanned | src/skcomms/consent_banfeeds.py:234-239 | True exactly when some subscribed feed holds a matching ban entry |
| BanFeeds.FeedSubscription.Reasons | src/skcomms/consent_banfeeds.py:241-252 | Non-empty exactly when banned; every reason is a matching ban entry of its publisher |
| BanFeeds.BannedIff | src/skcomms/consent_banfeeds.py:210-239 | After any offers a sender is banned exactly when some signed, verifying feed bans it, whatever the order |
| ConsentPolicy.RealmRulesIff | src/skcomms/consent_policy.py:90-122 | A rule for the sender decides whatever the server rules; without one, realm rules without wildcards decide exactly for the senders of those realms, the most permissive first |
| ConsentPolicy.UserRulesIff | src/skcomms/consent_policy.py:90-122 | Among the rules for a sender itself the most permissive decides; a policy that is off allows everyone |
| Tokens.HkdfSha256 | src/skcomms/consent_tokens.py:63-82 | Sections 2.2 and 2.3 of RFC 5869 for every length up to 255 hash blocks; beyond, the counter byte overflows and raises ValueError |
| Tokens.OkmPrefix | src/skcomms/consent_tokens.py:63-82 | A shorter output is the prefix of a longer one |
| Tokens.OkmChain | src/skcomms/consent_tokens.py:63-82 | Every block of the output is the MAC, under the MAC of the seed, of the block before, the info and its number |
| Tokens.DeriveIs | src/skcomms/consent_tokens.py:130-133 | A token is the hex text of the first block under the prefix and the contact's name |
| Hex.Injective | src/skcomms/consent_tokens.py:130-133 | Hex texts agree exactly when the bytes do |
| Hex.DigitsAre | src/skcomms/consent_tokens.py:130-133 | Two lower-case digits an octet, the more significant first |
| Tokens.TokenStore.Verify | src/skcomms/consent_tokens.py:162-182 | The check's answer, TypeError included |
| Tokens.VerifiesIff | src/skcomms/consent_tokens.py:142-198 | After any issues and revocations a token verifies exactly when its contact stands issued and it is the derived one |
| Tokens.RevocationIsIndependent | src/skcomms/consent_tokens.py:184-198 | Revoking one contact fails its token and changes no other contact's check |
| Tokens.TokenServesOtherIff | src/skcomms/consent_tokens.py:130-182 | One contact's token serves another exactly when their derived keys collide |
| Tokens.CheckRaisesIff | src/skcomms/consent_tokens.py:176-182 | The check raises instead of refusing exactly for non-ASCII text shown for an issued contact |
| Base64Url.DecodeEncode | src/skcomms/anon_queue.py:153-176 | Unpadded base64url (section 5 of RFC 4648) decodes back, for every byte string |
| Base64Url.AlphabetIs | src/skcomms/anon_queue.py:153-176 | The URL-safe alphabet in the order of RFC 4648 |
| Base64Url.GroupSpells | src/skcomms/anon_queue.py:153-176 | Four characters spell three octets as one number, most significant bit first |
| Base64Url.EncodeDecodeIff | src/skcomms/anon_queue.py:178-186 | A text re-encodes to itself exactly when it is canonical |
| AnonQueue.DecodeEncodeAqid | src/skcomms/anon_queue.py:131-186 | An address exists exactly for a non-empty slash-free relay and a 16-byte id, and decodes to them |
| AnonQueue.DecodesIff | src/skcomms/anon_queue.py:157-186 | Accepted addresses are exactly `aqid:`, a non-empty slash-free relay, '/' and an id text, which is 22 base64 characters or a text with foreign characters that the library decodes to 16 bytes |
| AnonQueue.EncodeDecodeAqidIff | src/skcomms/anon_queue.py:157-186 | An accepted address re-encodes to itself exactly when its id text is canonical base64; the rest are aliases |
| AnonQueue.TagBindsIff | src/skcomms/anon_queue.py:194-238 | Short of a MAC collision a tag stands for another message and nonce exactly when the joined bytes agree; for nonces of one length, only for itself |
| Padding.BucketIsLeast | src/skcomms/padding.py:66-77 | The size class is the least bucket not below the length, past the ladder the least multiple of its top |
| Padding.SameClassIff | src/skcomms/padding.py:66-77 | Two lengths pad alike exactly when no bucket boundary lies between them |
| Padding.UnpadsIff | src/skcomms/padding.py:114-144 | A blob unpads to a body exactly when it starts with the body's 4-byte length and the body |
| Padding.UnpadPad | src/skcomms/padding.py:80-144 | Every body below 4 GiB comes back whatever the filler, from a blob of its class; longer ones are refused |
| Padding.BigEndianIs | src/skcomms/padding.py:80-144 | The length is written most significant octet first |
| AnonTransport.ParsesIff | src/skcomms/anon_transport.py:270-323 | The wires that open to a frame are exactly those of the layout, tagged under the non-empty secret, whose body unpads, on the expected queue |
| AnonTransport.ParseFrame | src/skcomms/anon_transport.py:205-259 | Framing succeeds exactly with the switch on, right lengths, a secret and a body below 4 GiB, and the frame opens to what was framed |
| AnonTransport.ChannelIff | src/skcomms/anon_transport.py:365-409 | A channel needs a secret, and from an address one that decodes; it has the parts it was given |
| AnonTransport.FrameLayout | src/skcomms/anon_transport.py:205-259 | A frame octet by octet: magic, version, queue id, nonce, tag over nonce, version, id and body, and the body behind its length |
| AnonTransport.RelayAgrees | src/skcomms/anon_transport.py:182-197 | The id a relay reads is the id the recipient authenticates |
| AnonTransport.FramesLookAlikeIff | src/skcomms/anon_transport.py:242-259 | Two frames have one length exactly when no size-class boundary lies between their payloads |
| AnonTransport.SmallFramesAreOneSize | src/skcomms/padding.py:50-77 | On the default ladder every payload of up to 4092 bytes is framed as 4170 bytes |
| AnonTransport.TagNamesOneFrame | src/skcomms/anon_transport.py:252-259 | Two accepted wires with one tag are one wire or show a MAC collision: no re-pointing, no change of nonce, body or pad |
| AnonTransport.RebuiltChannel | src/skcomms/anon_transport.py:365-409 | A channel rebuilt from the published address is the creator's without its private id, and each opens what the other seals |
| AnonTransport.OpensElsewhereIff | src/skcomms/anon_transport.py:403-409 | What opens on one channel opens on another exactly for the same id and a tag that also stands under the other's secret |
| Compression.TakenIff | src/skcomms/compression.py:53-123 | Compression is taken exactly at or above the threshold and below 95 percent; otherwise the payload is untouched; it fails exactly on an empty text under a threshold of zero |
| Compression.RoundTripIff | src/skcomms/compression.py:53-171 | Decompression undoes compression on every branch exactly unless zstd was used and the far side lacks it |
| PayloadCrypto.ClearIff | src/skcomms/core.py:1268-1298 | A payload leaves in the clear exactly when policy and keys say so; a failing primitive stops the send and never downgrades it |
| PayloadCrypto.ProtectIff | src/skcomms/core.py:1268-1298 | Which protection policy and keys come to: hybrid when the recipient advertises it and this build has it, else PGP with a key that is no blank text, else none |
| PayloadCrypto.SignedIff | src/skcomms/crypto.py:318-350 | A payload is signed exactly when signing is on, it has no signature and PGP is there, over its text as it stands; a failing signer stops the send |
| PayloadCrypto.PgpOpensIff | src/skcomms/crypto.py:187-316 | A PGP payload decrypts exactly with PGP present and the key; otherwise it stays as it came |
| PayloadCrypto.HybridOpensIff | src/skcomms/crypto.py:447-622 | A hybrid payload opens exactly with the private key and both party names as sealed; otherwise it stays as it came |
| PayloadCrypto.InboundOfOutbound | src/skcomms/core.py:1268-1315 | Inbound crypto gives back the signed payload exactly when the receiver can read it, the ciphertext otherwise |
| MessageWire.UnwrapWrap | src/skcomms/core.py:181-255 | Unwrapping a wrapped message gives it back, with sender and times of the envelope, routing mode and ttl at their defaults, and an empty signature as none |
| MessageWire.UnwrapIff | src/skcomms/core.py:200-255 | What any envelope is read as, header by header, present, absent or unreadable |
| MessageWire.EmitIff | src/skcomms/core.py:851-890 | A send goes out signed exactly when there is a signer and it signs, under the fqid when the node has one; otherwise unsigned, as prepared |
| MessageWire.HeaderlessUnwrap | src/skcomms/core.py:200-255 | A reader that knows none of the headers still gets id, text and type |
| MessageWire.ParseEmit | src/skcomms/core.py:1180-1207 | Whichever wire form a send took, parsing gives the prepared payload and labels |
| MessageWire.EndToEnd | src/skcomms/core.py:821-1229 | Compress, sign, encrypt, wrap, unwrap, decrypt, decompress: id, recipient, type, thread, reply, urgency and ack flag always arrive; the text exactly when the receiver can read it, else the marked ciphertext |
| MessageWire.SignatureStandsIff | src/skcomms/core.py:1268-1298 | The payload signature holds for the text the receiver ends with exactly when the text is below 256 bytes, does not compress below 95 percent, or is its own compressed form |
| MessageWire.ShortNames | src/skcomms/crypto.py:530-542 | A name, its fqid and its capauth uri shorten to one name |
| Discovery.MergeTransports | src/skcomms/discovery.py:122-131 | The transport loop of merge computes the ordered overlay its laws are about |
| Discovery.MergeAssociativeIff | src/skcomms/discovery.py:99-143 | Merging associates around a peer exactly when each last entry for a transport name has every setting name of the earlier entries for it; distinct names suffice |
| Discovery.HiddenSettingsBreakMerge | src/skcomms/discovery.py:122-131 | A peer with two entries for one transport and different settings, around which merging does not associate |
| Discovery.MergeAgain | src/skcomms/discovery.py:99-143 | Merging a peer in twice is merging it once; merging it into itself is the identity exactly when it repeats no transport and no capability |
| Discovery.MergeKeeps | src/skcomms/discovery.py:108-143 | Capabilities and transports are exactly the unions, each once; every identity is there when either side has one, the first's kept; the later sighting wins; the rails are the first peer's, or the second's when it has none |
| Discovery.MergeOrder | src/skcomms/discovery.py:108-143 | Transports and capabilities come in the order of first appearance, the first peer's before the second's |
| Discovery.OverlaidSettings | src/skcomms/discovery.py:122-131 | Under every transport name the settings are the first peer's overlaid by the second's |
| Discovery.GatherIs | src/skcomms/discovery.py:498-517 | One entry per key seen, equal to the left fold of that key's sightings in order |
| Discovery.DiscoverAll | src/skcomms/discovery.py:479-519 | One entry per name any source saw, in name order, each the left fold of that name's sightings |
| Discovery.PeerStore.Add | src/skcomms/discovery.py:169-183 | Merges into the peer under the sanitized name or starts one; a name with no safe character raises; every file keeps a peer that maps to it |
| Discovery.SafeNameIs | src/skcomms/discovery.py:240-256 | Letters, digits, '-' and '_' are kept in order and everything else is dropped |
| Discovery.AddAgainIff | src/skcomms/discovery.py:169-183 | Adding a peer twice equals adding it once exactly when it was there before or repeats no transport and no capability |
| OutboxDrain.FileSystem.Move | scripts/drain_orphan_outbox.py:133-145 | Never overwrites; moves nothing in a dry run; otherwise the file is gone from the source and whole at the target |
| OutboxDrain.FileSystem.Drain | scripts/drain_orphan_outbox.py:148-264 | A run comes to `RunsTo`: empty success without a source, refusal of the applied self-drain with exit status 1, otherwise each envelope name drained once, though both patterns list it |
| OutboxDrain.DrainIs | scripts/drain_orphan_outbox.py:205-249 | The final place of every file, from the tree before the pass alone: no envelope's fate depends on another's or on the order |
| OutboxDrain.EnvelopePlaced | scripts/drain_orphan_outbox.py:214-249 | After an applied run every envelope file has gone to the active outbox when it parses and has not run out, to the archive otherwise, unless its name was taken there |
| OutboxDrain.DrainConserves | scripts/drain_orphan_outbox.py:133-145 | Every item stands in as many places after as before; nothing outside the source is replaced or removed; a change is a move from the source to where the envelope belongs |
| OutboxDrain.SecondPassMovesNothing | scripts/drain_orphan_outbox.py:124-145 | A second pass with the same clock moves nothing |
| OutboxDrain.CountsSum | scripts/drain_orphan_outbox.py:202-256 | The four counts sum to the envelope files scanned, and the skips are those whose name is taken where they belong |
| OutboxDrain.CountsAreKinds | scripts/drain_orphan_outbox.py:209-256 | Each of the four counts is the number of envelope files of its kind |
| OutboxDrain.DryPassPredicts | scripts/drain_orphan_outbox.py:133-145 | Over one listing a dry pass moves nothing and counts what the real one would |
| OutboxDrain.DryRunPredictsIff | scripts/drain_orphan_outbox.py:201-249 | A dry run leaves the tree alone, and agrees with the applied run of the same arguments on exit status and counts exactly when the source is missing or is not the active outbox itself |
| OutboxDrain.DrainOntoItself | scripts/drain_orphan_outbox.py:205-207 | A witness on two file systems: with the active outbox as its own source the dry run exits 0 and counts its files, the applied run exits 1 and counts nothing |

## Left out

- AnonQueue.DecodeAqid: takes what the base64 library makes of an id text with foreign characters as an argument; plain texts are decoded by the model.
- DeliveryLedger.Step: takes the dead letters that the retention rule prunes by age and count as an argument, any set of them; the file times behind the rule are not modelled.
- AutoAck.AnswerConfirmsIff: is about an answer that reaches the first sender and has not expired; routing and expiry are not part of it.
- DeliveryLedger.SKComms.Send: takes the router's report as an input; transport choice, health and cooldown are not modelled, and alerts carry whole ids where the source shortens them.
- OutboxDrain.FileSystem.Drain: takes what an envelope's JSON says of its creation time and ttl as a function of its bytes; failing moves, symbolic links and printing are not modelled.
- PayloadCrypto.DecryptPayload: a failing or missing primitive leaves the payload as it came, as the source does; which exception it was is not kept.
- Discovery.PeerStore.Add: takes every stored file as readable; one that does not parse is overwritten by the source.
- Text.Strip: knows the ASCII blanks only.
- HTTP routing, middleware, websockets, command line, configuration files, SQLite, YAML and JSON syntax: plumbing around the stores, which are maps here.
- InboxNode.Gateway.ConsentClassify: takes the verifier's word on each pinned feed, whether the ban gate fails to run, and which stages of the stack raise when reached as inputs; the mode variable, the friction overrides, the invite policy and the feeds themselves are modelled.
- InboxNode.InboxIs: keys an inbox by recipient and envelope id; the source puts the id, unchecked, into a file name under the recipient's directory (src/skcomms/api.py:1344-1348), so an id with path separators leaves that directory, which the model does not follow; nor that the empty recipient is the default agent's directory.
- InboxNode.Gateway.Poll: takes every file as readable and movable; the archive is not kept.
- Shadow blocks, reports, request listings, metrics, capability registries, heartbeat classification and grant lists: lookups with nothing to prove beyond their bodies.
- The outbox's own retry schedule and file format: a retry is any resolution of entries that do not wait for an acknowledgment.
- Group policy handles: kept as the configuration they were opened with and the table, in one record a group, where the source has a dictionary for each kind of handle.
- The heap module of the standard library: the sift loops exchange entries where it moves a hole; keys are distinct, so the order is the same.
- The federated send with its own ttl and acknowledgment headers, expiry of polled messages inside the wire model, read receipts and typed views.
- Rebuilding peers from file transports, network probes, DID and Nostr lookups, household, geo and signalling code.
- Crashes in the middle of a write and races between processes other than on the nonce file.
