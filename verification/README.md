# Proem: a verified model of the failover proxy

Proem is a reverse proxy in front of a pool of upstream accounts. It sends each request to one pool
member, tries another when a member is rate limited or unreachable, remembers limited members in a
shared Redis, keeps sessions on one member, counts tokens while responses stream through, and reloads
its pool file and client file while it runs. This project models those parts in Dafny and proves what
they are meant to guarantee, for all inputs and all interleavings.

## How the model is laid out

The failover logic exists in two forms.

* `Machine` is a step machine. Any number of requests, of any number of proxy instances, interleave
  over one key store, one clock and one history of counted events, together with reloads and ticks.
  Every step is a label, and the label carries what the code does not decide: whether the store
  answers, the random draw, the upstream's outcome, how a copy to the client ends. `Requests`,
  `Traces`, `Cooldowns`, `Affinity`, `Accounting` and `Outage` prove properties of every run. A run may
  start with any pool and any keys in the store.
* `Handler` is the loop as the code runs it, on a loader, a router, a store client, counters and a
  response writer that it updates in place. `Calls` says which run of the machine one call is: each
  step carries the label that the call's own turns (store answers, draws, waiting times, client
  writes) and its upstream give it. `ServeHTTP` is proved to leave the objects exactly as that run
  does, when no other request takes a step in between; the interleavings are the machine's. What is
  proved of runs therefore holds of such calls: justified replies
  (`HandledReplyIsJustified`), cooled members (`CooledMemberIsNotTried`), pins
  (`PinnedCallKeepsMember`), failing stores (`FailingStoreServesAlike`), stored counters
  (`StoredCountersBalance`), panics (`HopelessCallPanics`); and every call has a run that ends
  (`CallFinishes`), and only one (`CallIsDetermined`).

The remaining modules are the parts both forms share: `Usage` and `Stream` (token observer and copy
loop), `Selection` and `Routing` (weighted choice), `Forwarder` (body rewriting, `itoa`), `Detector`,
`Store`, and the configuration side, `Pools`, `Clients`, `Reloading` and `ClientIp`.

Conventions:

* A `string` stands for a byte sequence, one `char` a byte.
* Library calls are function-valued parameters and may be any function: `strings.ToLower`,
  `strings.TrimSpace`, `strconv.Atoi`, JSON decoding, SHA-256, CRC-32, URL, host and CIDR parsing. What
  a file holds when it is read, and what an upstream answers, are arbitrary too. Premises on such a
  parameter stand in the `requires` of the one lemma that needs them.
* Instants and durations are integers in nanoseconds. The product of a number of seconds and
  `time.Second` wraps around in 64 bits, as Go's does; so do the sums of weights.
* A store operation without an answer changes nothing and reads as the code's fail-open result. A write
  with a duration that is not positive sets no expiry, as `SET` in the Redis driver does.
* The iteration order of a Go map is the order in which a loop picks elements from a set; nothing is
  known of it.

## What the code does not do

* A pool is rejected for a negative weight, but a weight of 0 is accepted and turned into 1, so that
  member is selected (docs/site/_content/guides/pool-members.md:42 says it never is).
* When every member failed, the reply is the last detected failover as it came, or a 502, whatever
  earlier attempts returned; there is no 429 with a smallest Retry-After
  (docs/2026-08-31-claude-proxy-subs-design.md:80).
* `none` turns off the Redis pin, not the hashing by session
  (docs/site/_content/start/how-it-works.md:64).
* A hop that is no address counts as untrusted and is returned, not skipped
  (internal/clientip/clientip_test.go:118).
* A cooldown of more than 9,223,372,036 seconds is not kept: the nanoseconds wrap, and for
  9,223,372,037 the key is written without any expiry, so the member never comes back.
  `PermanentCooldownIsReached` is the run in which a Retry-After does that.
* Weights are added up in 64 bits without a check. For two members of weights 1 and 2^63 - 1, which the
  validator accepts, the total is negative: a request with a session gets the first member for every
  hash but 0, through the return after the loop, and one without a session makes the handler panic, so
  that it gets no response (`OverflowFallsThrough`, `HeavyPoolGoesWrong`). `ExactIffSumFits` and
  `ExactIffReach` say exactly when selection is by weight. `PanicExactly` says when a request can panic: on
  a pool from the loader, with a store or without, if and only if the weights of its enabled members add
  up to 2^63 or more. On such a pool a session-less request that can read no cooldown keys and whose
  attempts all fail always does (`HopelessCallPanics`).
* `RewriteBody` can depend on Go's random map order. For model names without quotes it does not, for
  any body, exactly when at most one entry renames anything, or no entry's value is renamed by another
  entry and no renaming entry has the name `model` as its key or value (`OrderFreeExactly`).
* Writing an empty chunk to the observer when the buffer is exactly full marks an overflow that is none.
  The copy loop never writes one.

## Model

| member | source | states |
|---|---|---|
| Handler.ProxyHandler.ServeHTTP | internal/proxy/handler.go:53-131 | The call's whole effect on store, counters and client is that of the run of the request machine whose labels are this call's turns and its upstream's answers, ending with the request answered; every recorded outcome is the upstream's answer to that attempt with the body rewritten for that member; the connection shows that reply and nothing else |
| Handler.HandledReplyIsJustified | internal/proxy/handler.go:70-130 | A call handled after any earlier history, other requests still under way and any keys in the store, gets a justified reply |
| Handler.SessionHeaders | internal/proxy/handler.go:62-65 | The session id is the first value of one header, or of another when that is missing or blank |
| Calls.CallIsDetermined | internal/proxy/handler.go:53-131 | When the upstream has one answer to each attempt on each pool member, as with order-free model maps or answers that do not depend on the body, two finished calls from the same state that meet the same turns, upstream and client writes are the same run: same picks, attempts, reply, counters and keys |
| Calls.CallFinishes | internal/proxy/handler.go:53-131 | For every state, upstream, pattern of store answers and client there is a run in which the call is finished |
| Calls.OneAnswerSuffices | internal/proxy/forwarder.go:49-62 | Order-free model maps, or answers that do not depend on the body, give the upstream one answer to each attempt on each member |
| Calls.OutcomesAreAnswers | internal/proxy/handler.go:91-94 | Every outcome a call records is the upstream's answer to that attempt on that member with a rewritten body, and there is one for each attempt |
| Calls.LabelsAreOfTurns | internal/proxy/handler.go:70-121 | Every store answer, draw and wait in a call's run is that of one of its turns |
| Handler.ProxyHandler.NextMember | internal/proxy/handler.go:71-89 | Filtering the tried members and picking are the machine's cooldown read followed by its choice, with this turn's labels; the result says whether a member was picked, the request is exhausted, or the pick panicked |
| Handler.PickIsTwoSteps | internal/router/router.go:20-113 | One call of Pick decides what the cooldown read and the choice of the machine decide one after the other |
| Handler.ProxyHandler.Attempt | internal/proxy/handler.go:91-121 | One attempt, as steps labelled by its turn, either commits, with the reply on the connection, or leaves the client untouched and goes back to the loop head with its response held |
| Handler.ProxyHandler.TryMembers | internal/proxy/handler.go:67-131 | The loop over the attempts and what follows it take the request from its first loop head to its reply |
| Handler.ProxyHandler.Round | internal/proxy/handler.go:70-122 | One turn of the loop ends the request, or finds nobody to try, or leaves the client untouched with the member tried and its response held |
| Handler.ProxyHandler.Settle | internal/proxy/handler.go:92-121 | What follows the send: the commit, with the reply on the connection, or the failed attempt, with the client untouched, as the outcome demands |
| Handler.ProxyHandler.Ask | internal/proxy/handler.go:91-94 | The wait and the upstream's answer are the next two steps of the run |
| Handler.ProxyHandler.Classify | internal/proxy/handler.go:92-121 | The decision to cool down, with seconds and reason, or to commit, streamed or buffered, is the machine's classification of the outcome |
| Handler.ProxyHandler.Exchange | internal/proxy/handler.go:91-94 | The send, with the time it took, is recorded with the outcome the upstream gave |
| Handler.ProxyHandler.Send | internal/proxy/handler.go:201-242 | The upstream is asked with the member and the body rewritten in some order of its model map |
| Handler.ProxyHandler.Cooldown | internal/proxy/handler.go:244-255 | The cooldown key is written for the resolved seconds, or nothing changes without a store or an answer |
| Handler.ProxyHandler.Finish | internal/proxy/handler.go:137-154 | Pin first, then the response up to where the client's writes let it get, then the counters, with the usage of reading the delivered bytes in one piece |
| Handler.ProxyHandler.Relay | internal/proxy/handler.go:124-130 | The exhausted reply: status, headers and the whole held body of the last attempt if it has one, or as much of that body as the one write gets out; else a 502 |
| Handler.ProxyHandler.GiveUp | internal/proxy/handler.go:124-130 | A loop that ended without a commit shows the exhausted reply, whole unless its one write fails, which the last attempt alone decides |
| Handler.Deliver | internal/proxy/handler.go:144-150 | Status, headers and bytes go out as they come, and the usage is that of one pass over the bytes, whatever the chunks were |
| Usage.OneShotMeans | internal/proxy/usage.go:69-183 | That usage is what the bytes mean under their content type |
| Handler.Metrics.RecordUsage | internal/proxy/handler.go:267-285 | Adds exactly the positive counts of a usage record to the token counters |
| Handler.Metrics.CountServed | internal/proxy/handler.go:150-151 | The counters stay the sums of their history, which grows by the observation, its tokens and one request with the status as code |
| Requests.ReplyIsJustified | internal/proxy/handler.go:70-130 | In every run: a served reply is the last attempt's answer, no failover, after failed attempts only; a relayed reply is the last attempt's detected failover and a 502 means a last transport error or no attempt, and both come only when every enabled member was tried or ruled out by the latest cooldown read; a panic comes only without a session on weights that overflow |
| Requests.SendsAreAllowed | internal/proxy/handler.go:71-89 | In every run a member handed to send is enabled in the request's own snapshot and new to the request; ids of sends are distinct, at most one per member; the choice fails to give one only by a panic, without a session, on enabled members whose weights overflow |
| Requests.SendsAreBounded | internal/proxy/handler.go:70-89 | Sends are at most as many as members, and when there are that many everybody was tried, so the attempt counter never cuts a run short |
| Requests.SendIsByWeight | internal/router/router.go:67-112 | The same of the member a request of the machine is sent to |
| Requests.SessionFixesChoice | internal/router/router.go:68-91 | A session's choice does not depend on the random draw |
| Requests.RuledOutIsCooled | internal/router/router.go:39-56 | Ids are ruled out only by a cooldown key that was live at a read with an answer |
| Requests.CoveredWhenNobodyLeft | internal/proxy/handler.go:70-79 | When the loop ends without a commit, no enabled member is neither tried nor ruled out |
| Requests.RunKeepsInv | internal/proxy/handler.go:67-130 | Every state of every interleaving keeps the invariant of every request, positive cooldown seconds included |
| Requests.CommittedIsNoFailover | internal/proxy/handler.go:100-121 | A response is passed on unread exactly when it has no Retry-After and none of the statuses 429, 401 and 529, and is then no failover for any body; one read first is none with the body it has |
| Requests.NeverStuck | internal/proxy/handler.go:70-131 | A request that is not finished always has a next step |
| Requests.StepLowersRank | internal/proxy/handler.go:70-89 | Each step lowers a measure built on the untried members |
| Requests.RequestTerminates | internal/proxy/handler.go:70-131 | In no run does a request take more than 5n + 4 steps for a snapshot of n members |
| Panics.PanicExactly | internal/router/router.go:93-112 | On a pool with distinct ids and weights of at least 1, with a store or without, some run ends a request in a panic if and only if the weights of the enabled members add up to 2^63 or more; and exactly then some filter leaves enabled members whose total is negative |
| Panics.PanicNeedsOverflow | internal/router/router.go:93-112 | On any pool a panic needs enabled members whose weights wrap to a negative total |
| Panics.HopelessCallPanics | internal/proxy/handler.go:70-121 | On such a pool a call without a session that can read no cooldown keys and whose attempts all fail ends in a panic, whatever its random draws are |
| Panics.WeightWithout | internal/proxy/handler.go:257-265 | Leaving out a tried member takes exactly its weight off the sum |
| Requests.RunConcat | internal/proxy/handler.go:53-131 | A run followed by a run is a run |
| Traces.SnapshotAndReplyAreFinal | internal/proxy/handler.go:55-59 | A request keeps its snapshot across reloads, and a finished request never changes: exactly one reply |
| Traces.ReplyOfRunIsFinal | internal/proxy/handler.go:55-59 | The same of runs: however a run goes on, snapshot and reply stay |
| Traces.ArrivalTakesLatestPool | internal/proxy/handler.go:55 | A request that arrives gets the pool installed last |
| Traces.RunHasTrace | internal/proxy/handler.go:53-131 | Every run can be written down with all its states |
| Traces.TraceIsRun | internal/proxy/handler.go:53-131 | Every sequence of states in which each follows from the one before by its step is a run |
| Cooldowns.CooledMemberIsNotPicked | internal/router/router.go:39-66 | Between a cooldown write and its expiry no request that can read the store picks the member, pinned sessions included, whenever the pin was written, unless the key was rewritten |
| Cooldowns.PickedWasUncooled | internal/router/router.go:39-56 | A cooldown read with an answer leads only to members without a live cooldown key at that read |
| Cooldowns.CooledMemberIsNotTried | internal/router/router.go:39-66 | A call that can read the store never tries a member whose cooldown key, written before it by anyone, lives until its end |
| Cooldowns.CooldownKept | internal/store/redis.go:45-50 | Only a cooldown write for the same id changes a cooldown key, over any stretch of any run |
| Cooldowns.CooldownWritten | internal/proxy/handler.go:244-255 | The seconds of a cooldown write are positive, and up to 9,223,372,036 the key lives exactly that long |
| Cooldowns.FailedAttemptCools | internal/proxy/handler.go:91-112 | After a detected failover or a transport error an answering store holds a key live for exactly n seconds from the write, up to 9,223,372,036: n is the positive number received, else the member's positive `cooldownSec`, else 18000 for a detected failover of an Anthropic member, else 60; and the failure is counted once with its reason |
| Cooldowns.KeyLastsFor | internal/store/redis.go:45-50 | A key written for up to 9,223,372,036 seconds is live exactly that many billions of nanoseconds |
| Cooldowns.EveryCooldownEnds | internal/failover/detector.go:26-62 | As long as the Retry-After values received and the cooldowns configured are at most 9,223,372,036 seconds, no run leaves a cooldown key without expiry |
| Cooldowns.PermanentCooldownIsReached | internal/proxy/handler.go:244-255 | The bound is needed: from any initial state with one healthy member, a first answer with a Retry-After of 9,223,372,037 leaves a cooldown key that is live at every later time |
| Affinity.PinIsLatestCommit | internal/proxy/handler.go:140-142 | In redis mode with an answering store that starts without pins, a session's key is always what its latest commit wrote |
| Affinity.LivePinIsLatestCommit | internal/store/redis.go:75-92 | A live pin is the member of the session's latest commit, less than an hour ago, and there is one exactly then |
| Affinity.OtherModesLeavePins | internal/proxy/handler.go:140-142 | Outside redis mode no step touches an affinity key |
| Affinity.PinsCountOnce | internal/proxy/handler.go:75 | A pin has no effect outside redis mode, nor after the first attempt |
| Affinity.VisitKeepsMember | internal/router/router.go:57-66 | A pinned session's next request, within the hour, is served by the pinned member while it is present, enabled, uncooled and answers, whatever else runs meanwhile, and renews the pin |
| Affinity.SessionKeepsMember | internal/router/router.go:57-66 | So a sequence of such requests keeps its member throughout, across reloads and other traffic |
| Affinity.PinnedCallKeepsMember | internal/router/router.go:57-66 | A call of a pinned session, the pin live and the store answering, is served by the pinned member at the first attempt when the pool lists it as enabled, it is not cooled and what the pool's member with that id answers is no failover; the pin is renewed for an hour from the commit |
| Affinity.CommitPinsAnswerer | internal/proxy/handler.go:137-142 | After whatever failovers, a commit pins the session to the member that answered last |
| Accounting.CountersBalance | internal/proxy/handler.go:91-121 | In every run, per client and member, over the history the counters are fed with: sends equal failovers plus served requests plus sends being dealt with; request errors equal transport failovers plus those being cooled; token events equal the positive usage observed |
| Accounting.QuietCountersBalance | internal/proxy/handler.go:91-121 | When all requests are answered the books close exactly |
| Handler.StoredCountersBalance | internal/proxy/handler.go:91-121 | After any run the stored counter vectors, summed over their labels, obey the balance: sends equal the failover counter over all reasons plus the request counter over all codes but "error" plus sends being dealt with; the "error" and "transport" counters agree up to those being cooled; each token counter is the positive usage observed |
| Accounting.RecordSum | internal/proxy/handler.go:267-285 | What a usage record adds to any sum over the history is the sum of its positive counts |
| Accounting.ServedIsCounted | internal/proxy/handler.go:150-151 | A served response adds one request with its status in decimal, and the tokens of the bytes the observer saw, as their content type says |
| Outage.DownStoreIsNoStore | internal/store/redis.go:53-92 | Of the machine: steps without a store answer give the same states with and without a store |
| Outage.FailingStoreIsNoStore | internal/store/redis.go:53-92 | A call whose store operations all go unanswered takes exactly the steps of a call of a handler without a store |
| Outage.FailingStoreServesAlike | internal/store/redis.go:53-92 | A handler with a failing store and a handler with none that meet the same upstream, with one answer to each attempt on each member, and the same hashes, draws and client end in the same request, reply and counters, in every affinity mode |
| Outage.ServeWithAndWithoutStore | internal/router/router.go:39-66 | Two handler objects serve one request, one through a store that never answers, one without a store: both connections show the same reply and both counters hold the same events |
| Outage.NoStoreIgnoresKeys | internal/router/router.go:39-66 | Without a store nothing depends on the keys |
| Usage.UsageObserver.constructor | internal/proxy/usage.go:69-71 | The observer starts with nothing seen, streaming exactly for an event-stream content type |
| Usage.UsageObserver.Write | internal/proxy/usage.go:75-91 | After every chunk: pending is the tail and usage the one-pass usage of all bytes seen, or the buffer is their first 1 MiB; non-empty chunks keep the overflow mark exact, and an empty one spoils it only on an exactly full buffer |
| Usage.UsageObserver.ConsumeStream | internal/proxy/usage.go:95-106 | Scanning a chunk on top of the pending bytes gives tail and usage of the longer body |
| Usage.UsageObserver.TakeLine | internal/proxy/usage.go:97-105 | One turn of the scan merges the first complete line and leaves the rest pending, or says that there is none |
| Usage.UsageObserver.ConsumeLine | internal/proxy/usage.go:108-140 | A line merges exactly the envelopes its data payload supplies, message first |
| Usage.UsageObserver.Result | internal/proxy/usage.go:161-183 | Of a stream, whatever its chunks were: each counter is the highest of zero and what the usage objects report, under `message` or at top level, that decode from the trimmed text after `data:` on a line ended by LF, less one CR; of another body of at most 1 MiB, the five fields of its usage object; nothing on overflow |
| Usage.ReadingIsMeaning | internal/proxy/usage.go:95-183 | The one-pass reading of any body gives what the body means, told by positions, decoded events and fields |
| Usage.LinesAreLines | internal/proxy/usage.go:95-106 | The lines cut are exactly the stretches between line feeds that end in one |
| Usage.LineSupplies | internal/proxy/usage.go:108-140 | A line supplies exactly the usage objects of the event its payload decodes to |
| Usage.StreamsByContentType | internal/proxy/usage.go:69-71 | A body is read as a stream exactly when `text/event-stream` occurs in its lowercased content type |
| Usage.LinesExtend | internal/proxy/usage.go:95-106 | The lines of a body and a further chunk are the body's lines and those of its tail with the chunk |
| Usage.LinesRoundTrip | internal/proxy/usage.go:95-106 | Terminated lines and tail give the body back |
| Usage.TailIsAfterLastLF | internal/proxy/usage.go:93-101 | The tail is exactly the bytes after the last line feed and holds none |
| Usage.GatherConcat | internal/proxy/usage.go:146-157 | Folding two runs of envelopes one after the other is folding them together |
| Usage.GatherIsHighest | internal/proxy/usage.go:142-157 | Each counter is the highest value any envelope reports, or zero: order and zero placeholders do not matter |
| Stream.CopyStream | internal/proxy/handler.go:158-175 | The client gets exactly the bytes read, those that come with the end included; after a write error it holds a prefix of what the observer saw, at most one 32 KiB chunk shorter |
| Stream.EndOfFits | internal/proxy/handler.go:158-175 | Where a failing client write ends the copy, the client is at most one 32 KiB chunk behind the observer |
| Stream.WriteHeaders | internal/proxy/handler.go:177-183 | Every header line arrives, in order within its name, whatever the order of names |
| Stream.ChunksDeliverBody | internal/proxy/handler.go:114-115 | A buffered body read back in full buffers delivers the body |
| Selection.Scan | internal/router/router.go:78-90 | The scan returns the first entry whose running total, wrapped to 64 bits, exceeds the draw, or the first entry when there is none |
| Selection.WeightTotal | internal/router/router.go:71-77 | The total is the wrapped sum of the weights, or the number of entries when that is zero |
| Selection.ExactIffReach | internal/router/router.go:71-112 | For any mix of zero and positive weights: the code draws below the true total and every draw selects the entry of its interval, if and only if the intervals that draws can reach end below 2^63; then the fall-through return is never taken |
| Selection.ExactIffSumFits | internal/router/router.go:71-112 | With weights of at least 1, that is if and only if they add up to less than 2^63 |
| Selection.OverflowFallsThrough | internal/router/router.go:71-112 | For weights 1 and 2^63 - 1 the total wraps to -2^63, and every draw but 0 falls through to the first entry though it lies in the second one's interval |
| Selection.SlotIsInterval | internal/router/router.go:79-89 | An entry is selected by exactly the draws between its prefix sums |
| Selection.TotalWithinShares | internal/router/router.go:71-86 | Without wrapping, the total never exceeds the sum of shares, and equals it with positive weights |
| Selection.DrawsArePartition | internal/router/router.go:93-111 | With positive weights that add up below 2^63 the draws for which the scan returns each entry partition [0, total), entry i getting its interval, weight-many, and none falls through |
| Selection.ResidueCount | internal/router/router.go:78 | How many numbers below n have a remainder in an interval: quotient times its size plus its overlap with [0, remainder) |
| Selection.HashShare | internal/router/router.go:68-91 | For such weights, the exact number of the 2^32 session hashes for which the code selects an entry |
| Selection.HashShareIsProportional | internal/router/router.go:68-91 | It lies between weight times floor and weight times ceiling of 2^32 over the total |
| Routing.Router.Pick | internal/router/router.go:20-113 | Pick returns the live pin if it is among the enabled and uncooled members, else the weighted choice among these, else the matching error, and panics when a random draw is asked for below a total that is not positive; without a live pin on them, and with weights of at least 1 that add up below 2^63, the member is the one in whose interval the session's checksum falls, or without a session the random draw |
| Routing.Router.PickWeighted | internal/router/router.go:71-112 | The weighted choice is the entry the wrapped scan finds for the draw's remainder by the wrapped total |
| Routing.Router.HealthyMembers | internal/router/router.go:24-56 | The two filters leave, in pool order, exactly the enabled members without a live cooldown key, or all enabled ones when nothing can be read |
| Routing.ChosenIsHealthy | internal/router/router.go:57-112 | Whatever is chosen is one of the healthy members; a pin on one of them wins; nothing is chosen only for a random draw on a negative total |
| Routing.ChoiceIsByWeight | internal/router/router.go:67-112 | Without a live pin on a healthy member, with weights of at least 1 that add up below 2^63: the member chosen is healthy[i] if and only if the checksum of the session id modulo the sum lies between the prefix sums at i and i + 1, whatever the random number; without a session the same of the random number |
| Routing.KeepTwice | internal/router/router.go:24-56 | Filtering by one test and then another is filtering by both |
| Routing.MemberShare | internal/router/router.go:67-91 | Whichever members of a loaded pool are left after filtering, each receives its exact share of the session hashes, when the weights of those left add up below 2^63 |
| Routing.MemberShareIsProportional | internal/router/router.go:67-91 | That share lies between weight times floor and weight times ceiling of 2^32 over the total |
| Routing.HeavyPoolGoesWrong | internal/router/router.go:68-112 | On two healthy members of these weights the choice without a session panics, and the choice for a session is the first member for every hash but 0 |
| Forwarder.RewriteBody | internal/proxy/forwarder.go:49-62 | The result is that of visiting the entries in some order, and under the side conditions the one-step renaming, whatever the order |
| Forwarder.CutRoundTrip | internal/proxy/forwarder.go:53-60 | A text cut at its quotes renders back to itself |
| Forwarder.PassIsReplace | internal/proxy/forwarder.go:57-59 | A textual ReplaceAll pass is a pass over quote-delimited cells |
| Forwarder.PassAt | internal/proxy/forwarder.go:57-59 | What a pass does to each cell, matches that share a quote included |
| Forwarder.HitsKept | internal/proxy/forwarder.go:56-60 | Passes for other names neither make nor destroy a match |
| Forwarder.OrderedIsRenamed | internal/proxy/forwarder.go:56-60 | Every visiting order gives the one-step renaming of the original text |
| Forwarder.FieldIsRenamed | internal/proxy/forwarder.go:56-60 | In a body with one model field, in any of the three spellings written out, the field gets the entry of its model, in every visiting order, and nothing else changes |
| Forwarder.Spellings | internal/proxy/forwarder.go:57-59 | The three patterns as text |
| Forwarder.OrderFreeExactly | internal/proxy/forwarder.go:49-62 | For names without quotes the result is independent of the order for every body if and only if at most one entry renames anything, or no value is renamed by another entry and no renaming entry has `model` as key or value |
| Forwarder.OrderFreeIffSettled | internal/proxy/forwarder.go:49-62 | For names without quotes and other than `model`, that is if and only if no value is renamed by another entry |
| Forwarder.FieldKeySpoilsOrder | internal/proxy/forwarder.go:56-60 | Renaming a model called `model` next to any other renaming entry makes the order matter, whatever further entries there are |
| Forwarder.FieldValueSpoilsOrder | internal/proxy/forwarder.go:56-60 | So does renaming a model to `model` |
| Forwarder.FormatInt | internal/proxy/forwarder.go:64-77 | The buffer filled from the right holds the decimal digits, and is long enough for every 64-bit number |
| Forwarder.DigitsRoundTrip | internal/proxy/forwarder.go:64-77 | Reading the digits gives the number back, without leading zeros |
| Detector.FailoverExactlyWhen | internal/failover/detector.go:26-48 | Failover exactly for a Retry-After line that is not empty, or for status 429, 401 or 529 with one of the seven keywords anywhere in the lowercased body |
| Detector.ContainsIsOccurrence | internal/failover/detector.go:40 | A text contains a part exactly when it stands at some position |
| Detector.ReasonIsFirstKeyword | internal/failover/detector.go:28-43 | The reason is `retry-after` for such a line, and otherwise the first keyword of the list that occurs |
| Detector.AskedSeconds | internal/failover/detector.go:28-34 | The seconds are the positive number in the Retry-After line, if it is one, and otherwise none |
| Detector.MayIsSomeBody | internal/failover/detector.go:18-48 | The header test holds exactly when some body would fail over |
| Detector.StreamedNeverFailsOver | internal/failover/detector.go:11-23 | What the header test lets through fails over for no body |
| Detector.ReasonIsNotTransport | internal/failover/detector.go:26-48 | No detected reason is the label of transport failures |
| Store.RedisStore.SetCooldown | internal/store/redis.go:45-50 | Overwrites the cooldown key with its time to live, or changes nothing |
| Store.RedisStore.FilterHealthy | internal/store/redis.go:53-72 | The ids without a live key, in order; all of them when the store does not answer |
| Store.RedisStore.GetSticky | internal/store/redis.go:75-84 | The live pin, or nothing |
| Store.RedisStore.SetSticky | internal/store/redis.go:87-92 | Pins the session, or changes nothing |
| Store.KeysApart | internal/store/redis.go:10-13 | Cooldown and affinity keys never collide, nor do those of different ids or sessions |
| Store.UncooledMembership | internal/store/redis.go:53-72 | An id is let through exactly when it has no live cooldown key |
| Store.CooldownLastsExactly | internal/proxy/handler.go:254 | A positive cooldown lasts its number of seconds if and only if that is at most 9,223,372,036 |
| Store.CooldownCanBecomePermanent | internal/proxy/handler.go:254 | A key written for one second more never expires |
| Pools.Validate | internal/pool/types.go:60-91 | Accepts exactly the well-formed pools, and otherwise names the first bad member and the first of the faults it has |
| Pools.AcceptableMeans | internal/pool/types.go:66-88 | The conditions on one member, spelled out |
| Pools.EnabledUnlessSaid | internal/pool/types.go:47-52 | A member is disabled only by `enabled: false` |
| Pools.ApplyDefaults | internal/pool/loader.go:51-62 | Defaults are filled in place, member by member |
| Pools.LoadFile | internal/pool/loader.go:113-138 | The defaulted form of a valid file or nothing, as a reload gives it |
| Pools.LoadedIsReady | internal/pool/loader.go:47-62 | A loaded pool has members with non-empty distinct ids, weights of at least 1 and non-zero cooldowns |
| Pools.LoadedIsTheFile | internal/pool/loader.go:47-62 | A loaded pool is the file's, member by member, but for a weight of 0, which becomes 1, and a cooldown of 0, which becomes 18000 for the Anthropic types and 60 for the others |
| Pools.Loader.Reload | internal/pool/loader.go:38-65 | Installs a new pool object for a valid file; otherwise the active one stays, and the one replaced is never touched |
| Pools.Loader.Watch | internal/pool/loader.go:73-102 | After any run of notices the active pool is what replaying the versions read gives; every failed version and every watcher error was reported, when there is a callback |
| Pools.Loader.NewLoader | internal/pool/loader.go:19-35 | No loader without a first valid version |
| Pools.ReplayIsReady | internal/pool/loader.go:37-102 | Once a loader exists its pool is ready after any history of edits |
| Reloading.ReplayIsLatest | internal/pool/loader.go:37-65 | The active value is the latest version that loads, the one before them if none does |
| Clients.Registry.Validate | internal/client/types.go:49-82 | Accepts exactly the valid registries and installs an index of exactly their digests only then |
| Clients.Registry.Lookup | internal/client/types.go:86-92 | After a successful Validate a non-empty token gives what searching the list for its digest gives |
| Clients.FindIsUnique | internal/client/types.go:84-92 | The search finds the one client with the digest, or none when there is none |
| Clients.TokenFindsItsClient | internal/client/types.go:67-92 | In a valid registry a token finds the client whose lowercased digest is its hash, and nobody when there is none |
| Clients.FaultIsFirst | internal/client/types.go:56-76 | Which fault of a client is named: the first, in the order of the checks |
| Clients.NamePattern | internal/client/types.go:22 | A name is a letter or digit with up to 63 letters, digits, dots, dashes and underscores behind it |
| Clients.HashPattern | internal/client/types.go:20 | A digest is 64 lowercase hexadecimal digits |
| Clients.IndexIsSearch | internal/client/types.go:53-92 | The index agrees with the search for every digest |
| Clients.LoadFile | internal/client/loader.go:90-103 | A registry with its index for a valid file, nothing otherwise |
| Clients.Loader.Reload | internal/client/loader.go:37-44 | An invalid edit keeps the previous registry object |
| Clients.Loader.Watch | internal/client/loader.go:50-79 | After any run of notices the active registry is what replaying the versions read gives; every failed version and every watcher error was reported, when there is a callback |
| ClientIp.FromRequest | internal/clientip/clientip.go:51-64 | The peer unless it is trusted, then the rightmost untrusted hop or else the peer |
| ClientIp.ForwardedFor | internal/clientip/clientip.go:80-90 | The non-empty hops of all header lines, left to right |
| ClientIp.Reverse | internal/clientip/clientip.go:104-110 | The hops from right to left |
| ClientIp.RightmostIsUntrusted | internal/clientip/clientip.go:56-63 | The walk finds the hop with only trusted ones to its right, or the peer when all are trusted |
| ClientIp.AddressIsRightmostUntrusted | internal/clientip/clientip.go:51-64 | For a trusted peer and a header that lists parts, FromRequest returns the host of the part with only trusted hosts to its right, or the peer when all are trusted |
| ClientIp.UntrustedPeerIsTheAddress | internal/clientip/clientip.go:52-55 | Without a trusted peer the header is ignored |
| ClientIp.HostIsBare | internal/clientip/clientip.go:93-102 | A host with a port loses the port, one without loses its brackets |
| ClientIp.SplitOfJoin | internal/clientip/clientip.go:83 | Splitting at commas undoes joining with commas |
| ClientIp.LeftHopsIgnored | internal/clientip/clientip.go:56-63 | In the walk, hops to the left of an untrusted one have no effect |
| ClientIp.LeftLinesSameAddress | internal/clientip/clientip.go:51-64 | Header lines to the left of one with an untrusted hop do not change what FromRequest returns |
| ClientIp.LeftPartSameAddress | internal/clientip/clientip.go:51-90 | Nor does, within a line, what stands to the left of a part with an untrusted hop |
| ClientIp.JoinedLinesSameHops | internal/clientip/clientip.go:80-90 | Several header lines give the same hops as one line joined with commas |
| ClientIp.JoinedLinesSameAddress | internal/clientip/clientip.go:51-90 | FromRequest returns the same for several header lines and for one line joined with commas, as section 5.3 of RFC 9110 asks |

## Left out

- Handler.ProxyHandler.ServeHTTP: the request body, the client name and the upstream are parameters; building the upstream URL, copying request headers, injecting credentials and `Content-Length` are not modelled. The contract is about a call that no other request interrupts, and whose clock moves only while an upstream works; `Machine` lets other requests and the clock step in anywhere.
- Handler.ProxyHandler.Finish: latency, the cooldown gauge and the sticky hit and miss counters are not modelled: the gauge does not follow key expiry, and the hit and miss read is separate from the one in Pick.
- Machine.LocalStep: a failed attempt's key write and its failover count are one step, as are the counts of a served response, although other requests could run in between; the affinity write and the copying are separate steps.
- Routing.Router.Pick: what follows a panic in the standard library, which ends the connection, is modelled as a request without any response. A pool of 2^63 or more members is not considered in `ExactIffReach`.
- Store.RedisStore.SetCooldown: the driver's rounding of durations to milliseconds is not modelled; no wrapped product is the driver's keep-the-expiry value of -1 ns, being even.
- Stream.CopyStream: flushing, and the checks of net/http on status codes and declared lengths; the outcome of each write is arbitrary.
- Forwarder.OrderFreeExactly: says nothing of model names that contain quotes. Idempotence of the rewrite is not claimed, being false when two matches share a quote.
- Affinity.PinIsLatestCommit: holds of stores without earlier pins only; a pin that a previous deployment left is nobody's commit in this history. The other results make no such assumption.
- Pools.Loader.Watch: the set-up and the closing of the watcher.
- Clients.Registry.Validate: the kind of fault is returned without the message text; the two regular expressions are written out as predicates.
- Clients.Loader.Watch: the set-up and the closing of the watcher.
- ClientIp.FromRequest: the trusted blocks are a predicate on addresses; parsing them from the configuration (`NewResolver`) is not modelled.
- Token authentication, the access log, configuration flags, header injection and the other HTTP endpoints: branch-level facts.
- `IsCooldown`, `Close` and the constructors of the store: not used by the loop.
- Parsing of YAML, JSON, URLs, addresses, and the digests CRC-32 and SHA-256: arbitrary functions here.
- HTTP transport, time-outs, listeners and shutdown; the documentation site, scripts and container files.
