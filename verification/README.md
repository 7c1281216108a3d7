# A verified model of the Codex relay and its money logic

The gateway relays Codex turns through a pool of subscription accounts and API keys, bills
them per token and sells credit for them. This project models the code that decides which
bytes a client sees, which credential serves a request, and who is charged what, and proves
what that code promises. `dafny verify dfyconfig.toml` checks everything.

The form follows the source. Objects whose methods change fields are classes (`Source`,
`LineReader`, `SseRelay`, `Bridge`, `Limiter`, `Statement`, `ProvStore`, `Store`), loops are
methods with invariants, and protocols run by several goroutines are state machines over
their atomic steps, proved over every run. Libraries whose source is elsewhere appear as
function values a theorem quantifies over (`Upstream`, `Converter`, `World`, `Market`), so
every result holds whatever they compute.

| file | what it models |
|---|---|
| Common.dfy, LineFraming.dfy | bytes, and the line reader over arbitrary read chunks |
| SseRelay.dfy, SseRelayLaws.dfy, SseLineLaws.dfy | the withholding event-stream relay, what a whole run guarantees, and how single lines are read and rewritten |
| ChatBridge.dfy | the chat-completions bridge over the same reader |
| Failover.dfy | the per-request failover loop |
| EditDistance.dfy, ModelGuard.dfy, ModelCatalog.dfy | the two-row distance, the model-name rules, the refreshed catalog and the guard |
| TurnBilling.dfy, SettlementQueue.dfy | WebSocket turn deltas, and the queue that settles them |
| RefreshGate.dfy | the forced token refresh |
| Orders.dfy, CreationLimiter.dfy, PriceGate.dfy | order crediting, the creation limit, multipliers and the fallback gate |
| TargetWindow.dfy, StatementTotals.dfy | target-amount statements and the per-model table |
| UptimeHistory.dfy, RespBinding.dfy | the pruned uptime history and the expiring response map |

## Where code and promise part

Each of these is a theorem with a concrete input and, for all inputs, the exact condition;
the model follows the code.

- Buffering is meant to be invisible. It is so exactly when no event name is left behind, that
  is, followed by another event name, or, while the client has nothing yet, by a blank line
  or by the end of the body (`WithholdingInvisible`; `BlankOvertakesName` shows such a body).
- The fallback gate is meant to refuse only when a key would cost the client more. It looks
  at every key of the provider, also those of credential groups the client is never served
  from. For every storable pricing group it keeps its promise exactly when a promotion runs,
  no key of the provider is priced above the group's rate, or a key the client could be given
  is (`GateIsExact`; `OtherGroupsKeyRefuses` shows a client turned away from a key at its own
  price).
- A top-up is meant for the token that ordered it. A token reset moves orders and wallets, but
  not what a worker has read: the credit reaches the order's owner exactly when the top-up is
  for a pool or the row still bears the token that was read (`ReachesTheOwner`). Otherwise the
  retired token's wallet is opened again and takes the money (`ResetLosesTopUp`).
- Ten creations an hour is meant to be the limit. The clock is read before the lock is taken,
  so an older stamp can be handled after a newer one, and then the limit can fail
  (`OvertakenBreaksLimit`). A call is wrongly accepted exactly when its stamp is older than
  the newest handled, its own hour is full, and the hour of the newest is not
  (`WronglyAdmitsExactly`); without such a call the limit holds (`LimitHolds`), as it does for
  calls in the order of their stamps (`OrderKeepsLimit`).
- A refused order creation is told to come back after a whole number of seconds, rounded
  down. Waiting that long is enough exactly when what is left of the oldest stamp's hour is a
  whole number of seconds or at most one (`HintSuffices`; `HintMayBeShort` shows an input);
  one second more always is (`AdmittedAfterHint`).
- The response map is documented to keep credential groups apart. Its keys join group and
  response with a bar, so a group name that extends another by a bar breaks that
  (`CrossGroupAnswer`); `IsolationExactly` says exactly when no run can show it.
- Reconciliation answers "credited" whenever the funnel reports no error. That is true
  exactly when the order's row was still pending or already paid as the credit was attempted
  (`ReconcileTellsTheTruth`); a cancellation in between makes it false
  (`CancelledYetCredited`).
- The uptime rollup forgets pruned days, and a late sample can bring one back with too small
  a count (`LateSampleUndercounts`), outside the window the bars show. A day is exact
  exactly when it was never dropped (`ExactUnlessDropped`), and a sample keeps all days exact
  unless it revives a dropped one (`ExactStep`).

The failover loop needs no cap: every credential is used at most four times, so it ends
within four rounds per credential (`RoundsAreBounded`). The cap of twelve can end it earlier,
with a credential never tried (`CapCutsShort`).

## Model

| member | source | states |
|---|---|---|
| LineFraming.LineReader.ReadLine | internal/server/codex_oauth_proxy.go:1432-1474 | gives the first line of everything unread, consumes exactly it, and reports the read error only with the unterminated rest, whatever the buffer compaction did |
| LineFraming.LineReader.ReadAll | internal/server/codex_oauth_proxy.go:1423-1474 | a consumer that stops at the first error gets all lines of the text and then its tail |
| LineFraming.Reassemble | internal/server/codex_oauth_proxy.go:1423-1474 | chunking independence: any split into reads, last data with or without the error, gives the same lines, tail and failure |
| LineFraming.SplitExact | internal/server/codex_oauth_proxy.go:1432-1474 | the lines and tail concatenate to the text; each line ends at its only newline |
| LineFraming.SplitUnique | internal/server/codex_oauth_proxy.go:1432-1474 | no other cut of the text has that shape |
| SseRelay.PreambleNeverTerminal | internal/server/codex_oauth_proxy.go:712-904 | no payload is both withheld as an opener and taken as the end of the response |
| SseRelay.SseRelay.Next | internal/server/codex_oauth_proxy.go:1051-1253 | every call keeps the relay in step with the account of the lines read; a shedding call returns nothing and never terminal; a call without error consumes input |
| SseRelay.SseRelay.Emit | internal/server/codex_oauth_proxy.go:1181-1253 | what is written is exactly what the account owes, with held name and preamble in upstream order, at the commit and at the end of the body |
| SseRelay.SseRelay.ClassifyData | internal/server/codex_oauth_proxy.go:1094-1205 | a data line latches the withhold, is absorbed, dropped, or handed on scrubbed, demoted and repaired, as the account says |
| SseRelayLaws.RelayStream | internal/server/codex_oauth_proxy.go:995-1289 | over a whole run, any chunking: the bytes delivered are a function of the body and the failure, and the terminal flag is the account's unless withheld |
| SseRelayLaws.WithheldMeans | internal/server/codex_oauth_proxy.go:1062-1105 | a turn is withheld exactly when a refusal comes behind replaceable lines only, or the transport stalls with nothing but those read |
| SseRelayLaws.FlagsMean | internal/server/codex_oauth_proxy.go:1094-1205 | the two latches of the relay, characterised by the lines alone |
| SseRelayLaws.ShedLeavesNoTrace | internal/server/codex_oauth_proxy.go:1094-1162 | after a refusal behind replaceable lines the client gets nothing, whatever follows |
| SseRelayLaws.TerminalMeans | internal/server/codex_oauth_proxy.go:702-725 | a run not withheld reports the end exactly when some payload is a terminal event |
| SseRelayLaws.ComparesAll | internal/server/codex_oauth_proxy.go:1051-1253 | for every body with no refusal latched, the relay's account is the unbuffered line-by-line stream while no event name is left behind, and from then on differs from it for good |
| SseRelayLaws.WithholdingInvisible | internal/server/codex_oauth_proxy.go:1051-1253 | a run that is not withheld delivers what an unbuffered relay would, wherever the commit falls and even if it never comes, if and only if no event name is left behind, neither by the line after it nor by the end of a body nothing was sent of |
| SseRelayLaws.NamedEventsAreOrderly | internal/server/codex_oauth_proxy.go:1066-1080 | no line leaves a name behind where every event name is directly followed by its data |
| SseRelayLaws.BlankOvertakesName | internal/server/codex_oauth_proxy.go:1195-1212 | a body of which the client receives the blank line ahead of the name |
| SseLineLaws.DataLineReads | internal/server/codex_oauth_proxy.go:1077-1079 | "data:", white space, an object and a line end are read as that object |
| SseLineLaws.EventLineReads | internal/server/codex_oauth_proxy.go:1071-1075 | "event:" and anything after it is a name |
| SseLineLaws.BlankLineReads | internal/server/codex_oauth_proxy.go:1202 | a line is blank exactly when it is white space throughout |
| SseLineLaws.RebuiltReadsBack | internal/server/codex_oauth_proxy.go:1080-1085 | a rewritten data line is read as its new payload and ends as the old line did |
| SseLineLaws.RebuiltIsOneLine | internal/server/codex_oauth_proxy.go:1080-1085 | and is one line if the old one was |
| SseLineLaws.DataLineHandedOn | internal/server/codex_oauth_proxy.go:1080-1176 | what the scrubber is shown is upstream's own line unless something was rewritten, then the demoted refusal or the repaired payload; its verdict is all that happens to the line |
| ChatBridge.Bridge.Next | internal/server/codex_chat_bridge.go:62-110 | one frame per call, in order; the error only once nothing is pending |
| ChatBridge.Bridge.Absorb | internal/server/codex_chat_bridge.go:71-102 | called with nothing pending, as the source's comment claims, a line moves billing, shedding, failure and frames to the account of one more payload |
| ChatBridge.BridgeStream | internal/server/codex_chat_bridge.go:36-127 | over a whole run the client gets every translation in order, or nothing when shed; all payloads are billed; failure and demotion are those of the last such payload |
| ChatBridge.ShedsMeans | internal/server/codex_chat_bridge.go:80-90 | a turn is shed exactly when nothing before its first refusal was worth a frame |
| ChatBridge.TranslationInPlace | internal/server/codex_chat_bridge.go:97-102 | each payload's frames form one block right behind those of all earlier payloads |
| ChatBridge.OnlyWhatCame | internal/server/codex_chat_bridge.go:72-98 | usage adds up over any cut of the stream from nothing; a failure or refusal is on record exactly when some payload is one |
| Failover.ForwardWithFailover | internal/server/proxy.go:323-521 | for any pool, attempts and cap: the rounds form a legal trace and the single reply is the one it calls for; no round starts after four minutes or follows one that settled the request, and the loop gives up on a pool with a candidate only at the cap or after four minutes |
| Failover.TryCredential | internal/server/proxy.go:426-509 | one round leaves the exclusions, withheld error and retry books in line with the trace, or ends with the reply due |
| Failover.UsesEarned | internal/server/proxy.go:426-509 | every use of a credential is its first or was earned by a grant, and the grants are bounded |
| Failover.PutBackExactly | internal/server/proxy.go:461-488 | a credential stays a candidate after an attempt exactly when it is a Codex one, the attempt failed, and it was its first dead socket or one of its first two capacity refusals |
| Failover.ReplayedIsLast | internal/server/proxy.go:502-507 | what is replayed is the error kept back last, if preparation did not fail since |
| Failover.FourUsesAtMost | internal/server/proxy.go:323-521 | no credential is used more than four times by one request |
| Failover.PreparationFailsOnce | internal/server/proxy.go:429-456 | after local preparation failed once only API keys are used |
| Failover.RoundsAreBounded | internal/server/proxy.go:323-521 | the loop ends by itself within four rounds per credential, independently of the cap |
| Failover.CapCutsShort | internal/server/proxy.go:323-521 | a run over four credentials that the cap of twelve ends while the pool would still offer one never tried |
| EditDistance.Levenshtein | internal/server/codex_model_guard.go:359-393 | the two swapped rows compute the recursive distance |
| EditDistance.DistanceIsLeast | internal/server/codex_model_guard.go:359-393 | that distance is the least number of insertions, deletions and replacements, and is attained |
| EditDistance.NoShorterScript | internal/server/codex_model_guard.go:359-393 | no script of edits is shorter |
| EditDistance.ScriptExists | internal/server/codex_model_guard.go:359-393 | a script of exactly that length exists |
| EditDistance.Identity | internal/server/codex_model_guard.go:360-362 | zero exactly for equal names, which justifies the early return |
| EditDistance.Symmetry | internal/server/codex_model_guard.go:359-393 | symmetric |
| EditDistance.Triangle | internal/server/codex_model_guard.go:359-393 | satisfies the triangle inequality |
| ModelGuard.NormalizeModelName | internal/server/codex_model_guard.go:348-357 | keeps exactly the lower-cased letters and digits, in order |
| ModelGuard.NormalizeChar | internal/server/codex_model_guard.go:348-357 | which single characters survive, and as what |
| ModelGuard.NormalizeAppend | internal/server/codex_model_guard.go:348-357 | normalisation goes character by character |
| ModelGuard.CaseMakesNoDifference | internal/server/codex_model_guard.go:346-357 | names that differ only in case normalise alike |
| ModelGuard.ShortestMatch | internal/server/codex_model_guard.go:300-327 | the first of the shortest exact or containing names, or nothing when there is none |
| ModelGuard.ClosestModelName | internal/server/codex_model_guard.go:292-345 | exact before containing before nearest; the nearest is the first name of least distance within the budget, and empty exactly when none is |
| ModelGuard.SuggestionIsUnique | internal/server/codex_model_guard.go:292-345 | the three rules determine the suggestion |
| ModelGuard.GuessIsNearest | internal/server/codex_model_guard.go:329-345 | a guess is within budget and no served name takes fewer edits |
| ModelGuard.NothingClose | internal/server/codex_model_guard.go:288-345 | no suggestion exactly when no served name is the request, contains it, is part of it, or is within two edits or a quarter of its length |
| ModelGuard.ShortestExplains | internal/server/codex_model_guard.go:317-324 | among names that contain the request or are part of it the shortest spelling is suggested |
| ModelGuard.BaseNameMeans | internal/server/codex_model_guard.go:214-224 | the base is what stands before a parenthesised variant, or the whole name without one, stripped of its mode suffix |
| ModelGuard.CodexModelCandidates | internal/server/codex_model_guard.go:214-236 | the requested name, then without duplicates and longest first the base cut at none or one dash: exactly these |
| ModelGuard.CodexModelServable | internal/server/codex_model_guard.go:239-247 | true exactly when the catalog lists one of those names |
| ModelCatalog.RunKeeps | internal/server/codex_model_guard.go:106-154 | in every reachable state at most one refresh is in flight, starts are over 30 s apart, and the published set is the union of one round every credential answered |
| ModelCatalog.NeverUnlearned | internal/server/codex_model_guard.go:129-154 | a published catalog is never withdrawn |
| ModelCatalog.AskStartsExactly | internal/server/codex_model_guard.go:106-119 | a consultation starts a refresh exactly when none runs, the catalog is missing or over five minutes old, and the last attempt is over thirty seconds back |
| ModelCatalog.RoundsGoOn | internal/server/codex_model_guard.go:106-154 | a request can always ask, and a round in flight can always go on to its next answer or publish |
| ModelCatalog.RoundEnds | internal/server/codex_model_guard.go:134-153 | a failed probe makes room and changes nothing, a full round publishes |
| ModelCatalog.FromUnion | internal/server/codex_model_guard.go:143-145 | the published set lists nothing that no credential listed |
| ModelCatalog.ListedIsRouted | internal/server/codex_model_guard.go:177-200 | nothing listed is refused, nor anything while keys exist whose catalog was never fetched |
| ModelCatalog.RejectionIsGrounded | internal/server/codex_model_guard.go:106-200 | a rejection means no tier lists the model and, with keys loaded, some complete round had no key list it |
| TurnBilling.Pump | internal/server/codex_ws.go:456-542 | one bill per terminal event: on each axis the plain sum of what its turn's frames report, and one request; totals, frames read and close code are those of the frame sequence |
| TurnBilling.TurnsPartition | internal/server/codex_ws.go:456-542 | the turns and the open rest are the session |
| TurnBilling.TurnsEndAtTerminal | internal/server/codex_ws.go:506-518 | each turn ends at its only terminal event |
| TurnBilling.OpenHasNone | internal/server/codex_ws.go:506-518 | the open rest has no terminal event |
| TurnBilling.UsageAddsUp | internal/server/codex_ws.go:495 | running totals are, axis by axis, the plain sums of what frames report |
| TurnBilling.BillsConserve | internal/server/codex_ws.go:615-628 | per-turn deltas add up on all seven axes to what the frames of all turns report, with one request each |
| SettlementQueue.RunKeeps | internal/server/codex_ws.go:369-401 | in every reachable state each bill is in exactly one place and the channel is within its bound |
| SettlementQueue.SettledOnce | internal/server/codex_ws.go:369-401 | under every interleaving of enqueue, inline fallback, consumer and close an ended session has settled each turn exactly once |
| SettlementQueue.BilledAtOnce | internal/server/codex_ws.go:378-387 | a bill goes into the channel while it has room, and otherwise to the relay, which settles it before going on |
| SettlementQueue.NeverTwice | internal/server/codex_ws.go:369-401 | at no moment is a turn charged twice |
| SettlementQueue.OrderIrrelevant | internal/server/codex_ws.go:369-401 | the order of settlement changes neither total nor turns |
| SettlementQueue.SessionChargesItsUsage | internal/server/codex_ws.go:369-542 | pump and queue together charge, axis by axis, what the frames up to the last terminal event report |
| SettlementQueue.CloseDrains | internal/server/codex_ws.go:369-401 | a closed session can always step and every step brings its end closer |
| RefreshGate.RunKeeps | internal/server/codex_auth_reject.go:53-80 | the token, lock, once-only and currency invariants in every reachable state |
| RefreshGate.NoOverlap | internal/server/codex_auth_reject.go:70-80 | refreshes of one credential never overlap |
| RefreshGate.RefreshesTheCurrent | internal/server/codex_auth_reject.go:70-80 | a refresh is only in flight for the current token, unless it was rotated outside the gate after the comparison |
| RefreshGate.OneRotationPerToken | internal/server/codex_auth_reject.go:70-80 | at most one successful rotation leaves any given token |
| RefreshGate.RotatedMeansReplaced | internal/server/codex_auth_reject.go:70-80 | a worker told of a rotation never meets the rejected token as current again |
| RefreshGate.HolderCanStep | internal/server/codex_auth_reject.go:70-80 | the holder of a lock can always go on |
| RefreshGate.CurrentIsRefreshed | internal/server/codex_auth_reject.go:70-80 | a rejected token that is still current is refreshed, and the refresh may bring any new token |
| RefreshGate.ReplacedIsReported | internal/server/codex_auth_reject.go:70-80 | one replaced meanwhile is reported as rotated without an exchange |
| RefreshGate.RefreshRotates | internal/server/codex_auth_reject.go:70-80 | a refresh with a new token makes it current, is recorded, and is reported as rotated, with the lock free |
| RefreshGate.FailureIsReported | internal/server/codex_auth_reject.go:70-80 | a failed refresh is reported as failed and changes nothing |
| RefreshGate.RecheckIsHonest | internal/server/codex_auth_reject.go:70-80 | after a refresh rotated is reported exactly when the current token is not the rejected one |
| RefreshGate.FreeLockIsTaken | internal/server/codex_auth_reject.go:58-73 | a worker waiting for a free lock can take it and compare |
| Orders.RunKeeps | internal/saas/billing/handlers.go:461-519 | under every interleaving, token resets included, orders keep amounts, pool and creation time, credits their warrants, and balances add up |
| Orders.JudgeShape | internal/saas/billing/handlers.go:461-494 | the checks of the funnel move no money and change at most the notified order |
| Orders.ReadyExactly | internal/saas/billing/handlers.go:461-494 | a credit is attempted exactly when the order was read as pending and the message is settled, from the right app, within half a fen of the price and in time |
| Orders.AnsweredExactly | internal/saas/billing/handlers.go:461-494 | every other verdict by its cause, and that a late pending order is expired |
| Orders.RemovedExactly | internal/saas/db/orders.go:126-165 | cancellation and sweep take away exactly the pending orders named or old enough |
| Orders.SettleShape | internal/saas/db/orders.go:76-116 | the transaction credits one pending order in full, on the terms read, or changes nothing |
| Orders.CreditedOnce | internal/saas/db/orders.go:76-116 | each order is credited at most once, exactly when paid, for its own amount, on a matching settled notification in time; a credit that went out straight stands under the order's owner ever after |
| Orders.CreditMeans | internal/saas/billing/handlers.go:461-519 | figure by figure what a credit vouches for: amount, app, time, dollars and destination |
| Orders.ReachesTheOwner | internal/saas/db/wallet.go:329-482 | a credit goes to the order's owner exactly when the top-up is for a pool or the row still bears the token that was read; one balance gains the amount and no other changes |
| Orders.ResetLosesTopUp | internal/saas/db/wallet.go:329-482 | a run in which it does not: the token is reset between the read and the wallet being opened |
| Orders.BalancesAddUp | internal/saas/db/workspace.go:683-721 | every balance is its top-ups plus its other movements, also after it was carried to another token |
| Orders.PaidForever | internal/saas/db/orders.go:119-165 | a paid order is never lost, cancelled, swept, expired or reset away |
| Orders.TotalsAgree | internal/saas/db/orders.go:244-249 | total credit equals the sum over paid orders |
| Orders.SuccessIsEarned | internal/saas/billing/handlers.go:431-519 | a "success" answer means unknown, invalid, no longer pending or past its time to live |
| Orders.RetriedOnlyFor | internal/saas/billing/handlers.go:431-455 | the gateway is made to retry only by an unsettled message or a database fault |
| Orders.CreditedIsPaid | internal/saas/billing/handlers.go:496-519 | a completed credit found the order pending and left it paid with one credit |
| Orders.ReconcileTellsTheTruth | internal/saas/billing/handlers.go:611-626 | a "credited" answer leaves the order paid exactly when its row was still pending, or paid already, as the credit was attempted |
| Orders.CancelledYetCredited | internal/saas/billing/handlers.go:611-626 | a run in which it is not: the user cancels between the read and the credit |
| CreationLimiter.Limiter.AllowCreate | internal/saas/billing/handlers.go:560-583 | for calls in any order: accepts exactly when fewer than ten stamps still stored lie in the hour before the call, stores these and the accepted one, touches no other token, and otherwise hints at the first stored |
| CreationLimiter.Serve | internal/saas/billing/handlers.go:560-583 | over any calls it accepts exactly those accounted for; if stamps arrive in order, forgetting changes no decision and no one-hour window holds more than ten |
| CreationLimiter.HeldIs | internal/saas/billing/handlers.go:563-572 | what is stored of a token is what was accepted within an hour of the newest stamp handled |
| CreationLimiter.WronglyAdmitsExactly | internal/saas/billing/handlers.go:560-583 | exactly when a call is accepted that the full record would refuse, and that none is refused which it would accept |
| CreationLimiter.LimitHolds | internal/saas/billing/handlers.go:560-583 | as long as no call is wrongly accepted, decisions are those of the full record and the limit holds, in any order |
| CreationLimiter.OrderKeepsLimit | internal/saas/billing/handlers.go:560-583 | calls in the order of their stamps are never wrongly accepted |
| CreationLimiter.ReplayIsLimited | internal/saas/billing/handlers.go:560-583 | the rule itself, remembering everything, keeps the limit in any order |
| CreationLimiter.OvertakenBreaksLimit | internal/saas/billing/handlers.go:562-565 | a run in which an older stamp takes the lock last and eleven creations lie in one hour |
| CreationLimiter.AcceptKeeps | internal/saas/billing/handlers.go:560-583 | accepting into a window with room keeps every window within the limit |
| CreationLimiter.AdmittedAfterHint | internal/saas/billing/handlers.go:573-580 | after the hint plus a second there is room among the stored stamps |
| CreationLimiter.AdmittedOnReturn | internal/saas/billing/handlers.go:573-580 | so a refused caller is admitted then, whatever calls come in between and in whatever order, if none of them is accepted for its token |
| CreationLimiter.HintSuffices | internal/saas/billing/handlers.go:573-580 | waiting just the hint is enough exactly when the rest of the oldest stamp's hour is a whole number of seconds, or at most one second |
| CreationLimiter.HintMayBeShort | internal/saas/billing/handlers.go:573-580 | an input for which it is not |
| PriceGate.PromoFor | internal/server/promo.go:31-43 | the loop finds the rate of the promotions in force |
| PriceGate.PromoIsCheapest | internal/server/promo.go:31-43 | that rate is the cheapest covering promotion, and there is one exactly when some promotion covers the instant |
| PriceGate.ApiKeyFallbackWouldCostMore | internal/server/proxy.go:2004-2033 | true exactly when no promotion runs and the group is unreadable or some live key of the provider is priced above it |
| PriceGate.RefusedMeans | internal/server/proxy.go:2004-2033 | the same figure by figure, with the group's multiplier of that provider |
| PriceGate.ChargeMeans | internal/server/saas_billing.go:213-223 | a bill is the official price times promotion, else key, else the group's multiplier of that provider, else one |
| PriceGate.AllowApiKeyFallback | internal/server/proxy.go:1979-1993 | refuses exactly opted-out tokens for which that holds |
| PriceGate.FallbackNeverCostsMore | internal/server/saas_billing.go:213-253 | a token let through pays on any live key of the provider at most what it pays without one, for every monotone rounding |
| PriceGate.GateIsExactUnless | internal/server/proxy.go:1979-2033 | for any pricing group at all, exactly when the gate's refusal coincides with a dearer key that the client could be given; the gate never lets such a key pass |
| PriceGate.Backfilled | internal/saas/db/groups.go:87-96 | stored multipliers are positive, and positive ones are stored as given |
| PriceGate.StoredPricesArePositive | internal/saas/db/groups.go:87-147 | no sequence of group writes stores a multiplier that is not positive, and the default group stays |
| PriceGate.WritesTakeEffect | internal/saas/db/groups.go:98-147 | creations, updates and deletions do what they say and leave other groups alone |
| PriceGate.GateIsExact | internal/server/proxy.go:1960-2033 | the same for every group that can be stored: a promotion runs, no key of the provider is priced above the group's rate, or one the client could be given is |
| PriceGate.OtherGroupsKeyRefuses | internal/server/proxy.go:2017-2029 | an input where a premium key turns a public client away from a key that bills what it pays already |
| TargetWindow.RangeForTarget | internal/admin/statement.go:663-692 | stops at the first eligible row that brings the total to the target, or reports the total when none does |
| TargetWindow.WindowMeetsTarget | internal/admin/statement.go:663-692 | rate times the dollars in the half-open window is at least the target, over rows strictly newer than its start less, and any excess over the achieved amount comes from older rows tied at the start |
| TargetWindow.UnreachableMeans | internal/admin/statement.go:663-692 | failure happens exactly when all eligible rows together fall short |
| TargetWindow.TotalIsConverted | internal/admin/statement.go:676-690 | an accumulated total is the rate times the plain dollar sum |
| TargetWindow.FillByTarget | internal/admin/statement.go:376-403 | totals all rows in range, keeps the newest lines up to the limit, oldest first |
| TargetWindow.DocumentTotal | internal/admin/statement.go:376-403 | the document's converted total is the total of the located window |
| TargetWindow.LinesReadForward | internal/admin/statement.go:398-403 | the reversed lines are in chronological order |
| TargetWindow.TargetStatement | internal/admin/statement.go:376-692 | locating and filling together: the document meets the target |
| StatementTotals.Statement.Observe | internal/statement/statement.go:224-242 | adds one request to the totals and to its model's entry |
| StatementTotals.Statement.SetRangeTotals | internal/statement/statement.go:262-281 | replaces whatever was there by the given figures, merging rows of one model; so repeating it changes nothing |
| StatementTotals.Statement.Rollup | internal/statement/statement.go:290-308 | the table holds exactly the tally, strictly ordered by amount and name; token columns show exactly when some line has tokens |
| StatementTotals.SortedRows | internal/statement/statement.go:299-307 | whatever the order the map is walked in, the result is the sorted table of the tally |
| StatementTotals.TableUnique | internal/statement/statement.go:299-307 | a tally has only one such table |
| StatementTotals.TableOrder | internal/statement/statement.go:229-231 | largest amounts first, equal ones in string order, requests without a model under "(unknown)" |
| StatementTotals.WaysAgree | internal/statement/statement.go:224-281 | walking rows and pre-summed figures give one tally and one table |
| StatementTotals.TableAddsUp | internal/statement/statement.go:224-308 | names are unique and both columns sum to the totals beneath the table |
| StatementTotals.FillBothWays | internal/statement/statement.go:224-308 | both ways run on a statement each: same table, adding up to the same total |
| UptimeHistory.ProvStore.Record | internal/monitor/monitor.go:368-420 | the pruned timeline is the whole log within 48 h of the newest sample ever, and the days are the pruned rollup of that log, in any order of arrival |
| UptimeHistory.ProvStore.PruneDays | internal/monitor/monitor.go:425-448 | the walk over the keys drops exactly the days more than 89 behind the newest ever seen |
| UptimeHistory.RollupRefines | internal/monitor/monitor.go:399-448 | at most 90 days, each with good at most total and never above the truth; the 90 days up to the newest sample are exact whatever was pruned |
| UptimeHistory.ExactStep | internal/monitor/monitor.go:398-448 | a sample keeps all held days exact if and only if it does not bring a dropped day back to stay |
| UptimeHistory.ExactUnlessDropped | internal/monitor/monitor.go:398-448 | over any run a day shows its true figures if and only if it was never dropped, and otherwise shows too few |
| UptimeHistory.LateSampleUndercounts | internal/monitor/monitor.go:425-448 | an input where a pruned day comes back too small |
| UptimeHistory.Timeline | internal/monitor/monitor.go:723-732 | the published timeline is that of the full log, as far back as window and retention reach |
| UptimeHistory.LastDays | internal/monitor/monitor.go:698-709 | exactly n consecutive days ending today, gaps filled with zeroes |
| UptimeHistory.Uptime | internal/monitor/monitor.go:698-721 | no published bar overstates; bars and percentage are the full log's unless the clock is behind the newest sample |
| RespBinding.Store.Bind | internal/server/codex_session.go:52-59 | an empty response or account is ignored; otherwise the key holds this binding |
| RespBinding.Store.Get | internal/server/codex_session.go:64-75 | answers the last binding made under the key if it has not expired, swept or not |
| RespBinding.Store.Sweep | internal/server/codex_session.go:77-95 | drops exactly the expired entries, in any order, and changes no later answer |
| RespBinding.Run | internal/server/codex_session.go:31-95 | the answers of any run, in which no answer or sweep is stamped before an earlier sweep, are a function of its bindings: sweeps are unobservable |
| RespBinding.KeyCollision | internal/server/codex_session.go:49 | exactly when two group and response pairs share a key |
| RespBinding.RefinesIdeal | internal/server/codex_session.go:22-75 | among isolated groups the store answers as the ideal map by group and response |
| RespBinding.AnswersUntilExpiry | internal/server/codex_session.go:52-75 | in the ideal map a binding answers its pair until its time to live has passed, that instant included, unless bound again |
| RespBinding.UnboundHasNoAnswer | internal/server/codex_session.go:52-75 | a pair never bound, or bound to nothing, has no answer |
| RespBinding.BarFreeIsolates | internal/server/codex_session.go:49 | group names without a bar are isolated |
| RespBinding.IsolationExactly | internal/server/codex_session.go:22-75 | every run agrees with the ideal map exactly when no group's name is another's followed by a bar |
| RespBinding.CrossGroupAnswer | internal/server/codex_session.go:49-75 | the run that shows it otherwise: a caller in one group asks for the id that spells the other group's key |

## Left out

- HTTP, WebSocket and TLS I/O, handlers, header shaping, SQLite, PDF drawing and the web UI: plumbing.
- The classifier, scrubber, accumulator, translator, credential pool and pricing of cc-core are not part of this model; they are arbitrary functions, the pool with the promise `HonestPool`.
- JSON parsing: a payload is its bytes, and what is read from it is a function of them.
- SseLineLaws.DataLineHandedOn: for accumulators and demotions that hand out objects without white space around them, as JSON encoders do.
- Floating-point rounding: money is exact, and a charge is rounded by an arbitrary monotone function.
- White space in byte lines is the ASCII set; model names use the full one.
- The line reader returns values: reuse of its buffer by the slices it returned is not modelled.
- Relay diagnostics that never reach the client (what committed the stream, the fatal code, logging, keepalive comments) and its usage counting.
- SseRelay.SseRelay.Next: the withhold cap is an arbitrary open-or-shut function of the payload number instead of a byte and event count, which covers every cap.
- Failover.ForwardWithFailover: backoff lengths, slot release, affinity and logging are not modelled; whether the client waits out a backoff is an input.
- ModelGuard.ClosestModelName: exact only when no served name is the empty string, because the source lets an empty result stand for nothing found.
- TurnBilling.BillsConserve: `ReasoningTokens` and `CacheCreate1hTokens` are not part of the source's delta, so they are not billed per turn.
- The client-to-upstream half of the WebSocket pump and the database debit of `SettleCharge`.
- RefreshGate.RunKeeps: assumes a newly issued token was never issued before.
- Orders.RunKeeps: assumes the database executes each statement and transaction atomically, and that an order number is never given out twice, not even after its row is deleted. Reconciliation goes through the same steps with the gateway's answer as its notification. A token reset that its further guards refuse (membership, invoices) is no step.
- CreationLimiter.WronglyAdmitsExactly: assumes that less than an hour passes between a call reading the clock and its taking the lock, as far as the token's other stamps can tell.
- RespBinding.Store.Get: assumes a clock that does not go back.
- StatementTotals.SortedRows: `sort.Slice` is modelled as insertion into a sorted list; the order alone determines its result.
- TargetWindow.FillByTarget: the lines are reversed as a value, not by swaps in place.
- UptimeHistory.ProvStore.Record: one provider's store, dates as day numbers; persistence and malformed stored dates are not modelled.
- PriceGate.StoredPricesArePositive: covers the program's own writes to the group table, not rows edited by hand.
- Admin caches and the re-keying of statistics by client: mostly one-branch facts.
- Status-code tables, string-marker matchers and configuration defaults: one-branch facts.
