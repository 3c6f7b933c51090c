# Strela: a verified model

Strela is a synchronous SMTP/LMTP delivery gateway. This project models the parts of it that decide when a message may
be sent again, and the in-memory state that steers those decisions, and proves what they promise about every run.

`dafny verify dfyconfig.toml` checks everything.

| file | what it models |
|---|---|
| `Delivery.dfy` | one SMTP or LMTP transaction, one attempt (pooled, then fresh connection), and the loops over source IPs, IP versions and MX hosts |
| `DeliverySafety.dfy` | at most one copy, "unknown", "delivered" and "hard_bounce" over all runs of the engine |
| `DeliveryCoverage.dfy` | which attempts a run makes and in which order; when it has no status at all |
| `DeliveryProgress.dfy` | what a run sends, and how the answers it gets decide every outcome and status |
| `Gateway.dfy` | `DeliverMessage` as a whole, and the sources of every hard bounce across the MX cache |
| `Classifier.dfy` | the SMTP error classifier, as far as it decides statuses and reputation signals |
| `Reputation.dfy`, `ReputationHistory.dfy`, `ReputationConcurrent.dfy` | the IP reputation tracker: the code, sequential runs as a function of history, interleaved runs |
| `MxLookup.dfy`, `Singleflight.dfy`, `MxService.dfy` | MX lookup with its cache, request coalescing as a step system, and both together under any number of concurrent lookups |
| `Srs.dfy`, `SrsRoundTrip.dfy` | the Sender Rewriting Scheme codec |
| `LmtpWire.dfy` | dot-stuffing and reply reading of the raw LMTP code |
| `Pool.dfy`, `PoolLifecycle.dfy` | the connection pool, and ownership of connections across requests and context hooks |
| `DomainLimiter.dfy`, `DomainLimiterRaces.dfy`, `HttpLimiter.dfy` | the per-domain token bucket one event at a time, the same with calls and cleanups racing, and the per-IP request limiter |
| `Cidr.dfy` | expansion of source subnets |
| `KeyStore.dfy` | the DKIM key cache, its methods and runs of concurrent lookups |
| `Common.dfy` | options and ASCII string helpers |

## How it is modelled

Loops and objects that change state are methods and classes; each is proved equal to a function of its inputs or old
state, and the results below are about those functions. Clock readings, network answers, resolver answers, context
cancellation, the rotation start and map iteration order are parameters or arbitrary choices, so a statement for all
parameters is a statement for all runs. In the delivery engine they come from a `World` whose functions are indexed by
the loop position that asks; each position is visited at most once. The reputation tracker, the connection pool, MX
lookups, the domain limiters and the key cache are shared between goroutines. Each has a system whose steps are the
sections between two points where no lock is held (`ReputationConcurrent`, `PoolLifecycle`, `Singleflight`, `MxService`,
`DomainLimiterRaces`, the second half of `KeyStore`); a run folds an arbitrary list of actions, so every interleaving is
covered. `ReputationHistory` and `DomainLimiter` are about runs one operation at a time; the HTTP limiter holds one lock
throughout, so its operations are single steps.

## What the proofs brought out

- A final SMTP reply that is 1xx, 3xx or 2xx other than 250 makes the engine send a second copy (an "error", or a
  "temp_fail" on a pooled connection, is retried). `SafeCodesAreExact` shows that these codes, and no others, do; for
  LMTP they are the codes outside 2xx, 4xx and 5xx.
- LMTP reports "delivered" without sending the body when MAIL or RCPT is answered by a 2xx other than 250, or DATA by
  any 2xx (`LmtpOutcome`); `OddRepliesAreExact` shows that exactly these replies make "delivered" unsound.
- The branch for an empty record list in `DeliverMessage` is commented as unreachable; a cached permanent answer reaches
  it. It classifies as the fresh answer does (`CachedAnswersClassifyLikeFresh`).
- In dual mode without IPv6 preference, an IPv6 source pool that is the only pool is not used (`LegsMatchConfig`).
- SRS cannot be reversed with the separators '0' and '1' (they occur in the tags) or with a lower-case letter (the
  prefix test upper-cases the address only). `ReverseUndoesForward` gives the exact set. With a lower-case letter a
  forwarded address is not recognised when it is forwarded again either, so every hop wraps it in another SRS0 and it
  grows without bound (`LowerCaseNeverSettles`); for all other separators it is a fixed point from the second hop on
  (`StableIff`). The package comment says that stamps count days divided by four; the code counts days modulo 1024, and
  the model follows the code.
- The HTTP limiter admits a first request even when its limit is zero or negative; twice the limit per window, and
  invisibility of its cleanup, hold exactly for positive limits.
- The cleanup of domain limiters reads a limiter under its lock and deletes after releasing it. Calls in between are
  admitted by the old limiter and later ones by a new, full one: for every configuration there is a run that admits two
  bursts at one instant (`RaceDoublesTheBurst`). Under every interleaving each drop costs at most one more burst and
  refill (`AdmissionBoundUnderRaces`); if no call falls between the look and the deletion, or spans the deletion, drops
  are invisible exactly when burst times interval is at most 600 seconds (`QuietDropsAreInvisibleIff`).
- A "no mail route" answer read from the cache is never older than the negative lifetime. One that a caller joined can
  be, when its owner stores it and is held up before it takes its call off the table: callers join within the lifetime
  in all runs that bound that delay if and only if the bound is at most the lifetime (`JoinedInTimeIff`).
- The pool key joins host and source IP with a bar and is injective because source IPs hold none
  (`PoolKeyIsInjective`, `PoolKeyCanCollide`).
- An IPv6 /128 expands to no address at all (`Count`).

## Model

| member | source | states |
|---|---|---|
| `Delivery.TryDeliveryWithIpVersion` | internal/delivery/delivery.go:748-806 | the source IP loop computes the pool run: candidates in rotation order, stopping at a final status, a timeout or a cancelled context |
| `Delivery.TryHost` | internal/delivery/delivery.go:608-689 | the nested IP-version branches amount to walking the list of usable versions until a final status |
| `Delivery.TryHosts` | internal/delivery/delivery.go:587-699 | the MX loop computes the run of all hosts, with the last non-final result carried over |
| `DeliverySafety.SmtpOutcome` | internal/delivery/delivery.go:1012-1124 | over SMTP "unknown" is exactly a lost reply after the body, "delivered" exactly a 250 to it, "hard_bounce" exactly a code of 500 or more, "temp_fail" exactly a lower non-2xx code |
| `DeliverySafety.LmtpOutcome` | internal/delivery/delivery.go:1936-2045 | the same for LMTP, and "delivered" without a body exactly after an odd positive reply to MAIL, RCPT or DATA |
| `DeliveryProgress.SmtpExactly` | internal/delivery/delivery.go:1012-1124 | the body goes out exactly after three accepted commands in a live context, and the first reply that is not expected, or its loss, decides code, status and classified error |
| `DeliveryProgress.LmtpExactly` | internal/delivery/delivery.go:1936-2045 | the same for LMTP: which reply or fault decides, and what it decides |
| `DeliveryProgress.SmtpAttempt` | internal/delivery/delivery.go:894-923 | an attempt makes a pooled transaction iff there is a pooled connection, and a fresh one iff that was missing or left the matter open and dialling worked; site, address, outcome and status of each |
| `DeliveryProgress.LmtpAttempt` | internal/delivery/delivery.go:884-892 | an LMTP attempt makes one transaction unless dialling fails |
| `DeliverySafety.PooledFallback` | internal/delivery/delivery.go:894-923 | a fresh connection is tried exactly after a pooled transaction that ended in "temp_fail" or "error" |
| `DeliverySafety.AttemptInvariant` | internal/delivery/delivery.go:884-924 | in one attempt a settled transaction is the last and gives the status |
| `DeliverySafety.MxInvariant` | internal/delivery/delivery.go:587-699 | every run keeps: each transaction is one the world scripted, a settled one is the last, ends the run and gives its status, and only such a one does |
| `DeliverySafety.AtMostOneCopy` | internal/delivery/delivery.go:587-696 | with safe final replies, no transaction but the last can have left a copy, a copy left by the last decides the status, and any other status means no server may hold the message |
| `DeliverySafety.LostReplyIsUnknown` | internal/delivery/delivery.go:1580-1650 | whatever the replies, a lost reply after the body is the last thing that happens and is reported as "unknown", and nothing else is |
| `DeliverySafety.DeliveredIsSound` | internal/delivery/delivery.go:980-1001 | "delivered" means that the last transaction sent the whole body and its final reply was positive; over LMTP, when no odd positive reply came early |
| `DeliverySafety.OddRepliesAreExact` | internal/delivery/delivery.go:1936-2045 | "delivered" is sound in every LMTP run whose servers follow a script if and only if that script has no odd positive reply to MAIL, RCPT or DATA |
| `DeliverySafety.BounceHasCode` | internal/delivery/delivery.go:1671-1679 | a run bounces hard exactly on a reply code of 500 or more (a 5xx over LMTP) to its last transaction |
| `DeliverySafety.UnsafeCodeDuplicates` | internal/delivery/delivery.go:1654-1660 | each other final code makes a run in which two servers may hold the message |
| `DeliverySafety.SafeCodesAreExact` | internal/delivery/delivery.go:1611-1621 | the one-copy guarantee holds for all runs with a given final code if and only if the code is safe |
| `DeliveryCoverage.PoolCoverage` | internal/delivery/delivery.go:768-805 | a pool that ends without a final status made exactly the attempts not behind a timeout or cancellation |
| `DeliveryCoverage.NothingLeftUntried` | internal/delivery/delivery.go:587-696 | a run without a final status, in a live context, tried every planned source IP of every usable version of every resolved host that was not cut off, and nothing else |
| `DeliveryProgress.RunIsAccounted` | internal/delivery/delivery.go:587-696 | a run holds exactly the transactions of the attempts it made; an attempt that ends in delivered, hard_bounce, temp_fail or unknown is the last and gives the status, and only such a one ends a run early |
| `DeliveryProgress.TriedIsSent` | internal/delivery/delivery.go:748-806 | every site tried has a transaction from the address offered for it, unless there was no pooled connection and dialling failed; and every transaction belongs to a site tried |
| `DeliveryProgress.SourcesFitVersions` | internal/delivery/delivery.go:755-763 | IPv4 attempts come from the IPv4 pool, IPv6 attempts from the IPv6 pool, others from no given address |
| `DeliveryProgress.HostsInTurn` | internal/delivery/delivery.go:587-606 | one more host: nothing after an end or a cancellation, a timeout if cancelled there, temp_fail if it does not resolve, else its versions |
| `DeliveryProgress.PoolEnd` | internal/delivery/delivery.go:768-805 | a pool without a final status ends with the status of its last attempt, or in a timeout at the first address found with the context ended |
| `DeliveryProgress.WillingServerGetsMessage` | internal/delivery/delivery.go:587-640 | if the first server that can be reached accepts everything, the message is sent once, in full, and "delivered" is returned |
| `DeliveryCoverage.TriedInOrder` | internal/delivery/delivery.go:587-696 | attempts follow the plan order of hosts, versions and source IPs, so none is made twice |
| `Delivery.SelectIps` | internal/delivery/delivery.go:1739-1770 | the loop returns the addresses from the start index on and then those before it |
| `Delivery.Rotated` | internal/delivery/delivery.go:1764-1769 | the rotation holds every address of the pool as often as the pool does |
| `Delivery.RotationMovesOn` | internal/delivery/delivery.go:1764-1769 | starting one further on moves the first address to the end; starting at 0 changes nothing |
| `DeliveryCoverage.HealthyInOrder` | internal/delivery/ip_reputation.go:448-468 | the order of the rotation is kept |
| `DeliveryCoverage.AllOrNone` | internal/delivery/delivery.go:754-765 | with all addresses healthy, or none, the candidates are the rotated pool |
| `DeliveryCoverage.CandidatesExactly` | internal/delivery/delivery.go:754-765 | an address of the pool is a candidate exactly when it was answered healthy, or none was |
| `DeliveryCoverage.NoAddressTwice` | internal/delivery/delivery.go:768-805 | with pools that repeat nothing, no host is tried twice over one version from the same address |
| `DeliveryCoverage.EmptyStatusIff` | internal/delivery/delivery.go:610-640 | the status is empty exactly when every host resolved but to no usable IP version |
| `Gateway.DomainOf` | internal/delivery/delivery.go:1799-1805 | the domain is what follows the last at sign, or empty |
| `Gateway.DeliverMessage` | internal/delivery/delivery.go:331-558 | checks, route and engine together; with safe final replies the whole of it leaves at most one copy |
| `Gateway.OneCopyOverall` | internal/delivery/delivery.go:317-699 | the one-copy guarantee for `DeliverMessage` |
| `Gateway.BounceIsBacked` | internal/delivery/delivery.go:522-561 | a looked-up answer bounces exactly when an execution of the same run, for the same domain, found neither MX nor address; read from the cache it was at most the negative lifetime old, otherwise the caller had joined that execution |
| `Gateway.HardBouncesAreEarned` | internal/delivery/delivery.go:331-558 | over all interleavings of lookups, expiries, cleanups and cancellations, there is a hard bounce if and only if the recipient has no domain, or resolver answers of this run held no route as above, or the last transaction was answered with 500 or more (a 5xx over LMTP) |
| `Gateway.ChecksComeFirst` | internal/delivery/delivery.go:331-520 | each check before routing ends in its own status with nothing sent; rate_limit comes from the limiter alone |
| `Gateway.LookupsLeadOn` | internal/delivery/delivery.go:522-561 | an ended context or a failure that may pass gives temp_fail with nothing sent, no route a hard bounce, and otherwise the engine runs over as many hosts as the execution found |
| `Gateway.SignalsComeFromReplies` | internal/delivery/delivery.go:782-788 | the tracker hears a success only for "delivered", a strong or weak signal only for a reply code, a weak one only for a 5xx, and nothing for "unknown" |
| `Gateway.SignalsExactly` | internal/delivery/error_classifier.go:145-280 | a success signal is a delivery; a strong one a reply, other than 2xx, that names a blocklist; a weak one a 5xx with a weaker phrase that speaks of the sending address; all else is neutral |
| `Gateway.SmtpSignal` | internal/delivery/error_classifier.go:145-246 | a reputation error always carries a reply code, and a weak one a 5xx |
| `Reputation.PruneInPlace` | internal/delivery/ip_reputation.go:345-352 | pruning within the same buffer leaves the filtered list at its front |
| `Reputation.Tracker.IsIpHealthy` | internal/delivery/ip_reputation.go:121-144 | healthy unless degraded with a retry time not yet passed |
| `Reputation.Tracker.GetHealthyIps` | internal/delivery/ip_reputation.go:448-468 | the healthy addresses in order, all of them when tracking is off |
| `Reputation.Tracker.MarkIpDegraded` | internal/delivery/ip_reputation.go:150-176 | new entry or refreshed entry with one more failure, out for 3600 seconds per configured hour |
| `Reputation.Tracker.MarkIpRecovered` | internal/delivery/ip_reputation.go:216-234 | the entry is removed, if there is one |
| `Reputation.Tracker.RecordStrike` | internal/delivery/ip_reputation.go:331-362 | filter, append, compare with the threshold, clear on crossing |
| `Reputation.Tracker.RecordDeliveryAttempt` | internal/delivery/ip_reputation.go:261-308 | state and degrade event are those of the abstract step for the signal |
| `Reputation.Tracker.Cleanup` | internal/delivery/ip_reputation.go:398-443 | removes exactly the entries degraded longer ago than the cleanup hours whose retry time has passed, and the strike lists whose newest strike has left the window; all others are untouched |
| `Reputation.SecondWeakSignal` | internal/delivery/ip_reputation.go:324-362 | with a threshold of two, a second weak signal degrades iff it comes less than 60 seconds per configured minute (1800 if none) after the first |
| `Reputation.OutForRetryHours` | internal/delivery/ip_reputation.go:121-176 | a degraded address is healthy again iff more than 3600 seconds per configured hour have passed |
| `Reputation.HealthyOnlyExactly` | internal/delivery/ip_reputation.go:448-468 | an address passes the filter iff it was asked and found healthy |
| `Reputation.HealthyOnlyInOrder` | internal/delivery/ip_reputation.go:448-468 | the filter keeps the order |
| `ReputationHistory.OwnAttempt` | internal/delivery/ip_reputation.go:261-308 | one attempt takes the decision of the history and keeps the state in agreement with it |
| `ReputationHistory.CleanupKeepsMatch` | internal/delivery/ip_reputation.go:398-443 | a cleanup keeps the state in agreement with the history |
| `ReputationHistory.DecisionsFollowHistory` | internal/delivery/ip_reputation.go:261-362 | in every sequential run, cleanups included, an attempt degrades exactly when its signal is strong, or weak, in rotation, and the number of such signals in the window (in plain seconds) since the last success or degrade, itself included, reaches the threshold |
| `ReputationHistory.HealthFollowsHistory` | internal/delivery/ip_reputation.go:121-144 | health answers are a function of the attempts alone |
| `ReputationHistory.CleanupKeepsDecisions` | internal/delivery/ip_reputation.go:398-443 | two runs with the same attempts and different cleanups take the same decisions |
| `ReputationHistory.CleanupKeepsHealth` | internal/delivery/ip_reputation.go:398-443 | and give the same health answers |
| `ReputationConcurrent.RunKeepsInvariant` | internal/delivery/ip_reputation.go:261-378 | under every interleaving and clock reading: strikes cover crossings, stored lists stay below the threshold, a caller that saw a crossing is about to degrade or has done so once, and the degrade events of an address are its crossings less those not acted on yet |
| `ReputationConcurrent.CrossingsArePaidFor` | internal/delivery/ip_reputation.go:331-362 | threshold times the crossings of an address never exceeds its strikes; its stored list is shorter than the threshold |
| `ReputationConcurrent.EachCrossingDegradesOnce` | internal/delivery/ip_reputation.go:300-308 | each caller fires at most one weak degrade event, and only if it saw a crossing; an address has at most as many such events as crossings, and just as many once all callers have returned |
| `ReputationConcurrent.AloneIsSequential` | internal/delivery/ip_reputation.go:261-378 | a caller that nothing interrupts does what the sequential code does |
| `MxLookup.RecordsAreSorted` | internal/delivery/mx_lookup.go:123-126 | records are a permutation of the answer in order of preference |
| `MxLookup.FreshAnswerMeaning` | internal/delivery/mx_lookup.go:154-192 | MX records, else the domain itself if it has an address (section 5.1 of RFC 5321); retryable exactly on a transient failure that was needed |
| `MxLookup.BouncesExactlyWithoutRoute` | internal/delivery/mx_lookup.go:154-192 | an execution bounces exactly when it found neither MX nor address |
| `MxLookup.MxCache.GetFromCache` | internal/delivery/mx_lookup.go:209-230 | a live entry is served, an expired one dropped |
| `MxLookup.MxCache.Lookup` | internal/delivery/mx_lookup.go:68-138 | one lookup on its own: context first, then cache, then one execution whose result is stored and returned (shared executions are `MxService`) |
| `MxLookup.MxCache.CleanupExpiredCache` | internal/delivery/mx_lookup.go:257-278 | drops exactly the expired entries and counts them |
| `MxLookup.EntriesAreStored` | internal/delivery/mx_lookup.go:234-240 | under any interleaving an entry is that of the last execution stored for its domain |
| `MxLookup.CachedAnswersClassifyLikeFresh` | internal/delivery/mx_lookup.go:68-85 | a cached answer classifies as the fresh answer it came from, and is no older than its lifetime |
| `MxLookup.CachedBounceIsPermanent` | internal/delivery/mx_lookup.go:104-117 | a bounce from the cache comes from an execution without a route, at most the negative lifetime ago |
| `MxLookup.ServedWhileAlive` | internal/delivery/mx_lookup.go:209-278 | with a clock that does not go back, a domain is served exactly while its last result lives |
| `MxLookup.LifetimeMeans` | internal/delivery/mx_lookup.go:104-129 | results with hosts live as long as positive answers, all others as long as negative ones |
| `MxService.RunKeepsInvariant` | internal/delivery/mx_lookup.go:68-138 | what every interleaving of lookups, shared executions, cancellations and deletions keeps of cache, calls and callers |
| `MxService.ResultsAreOfTheRun` | internal/delivery/mx_lookup.go:95-129 | every result stored or under way comes from resolver answers given in the run |
| `MxService.OwnerIsAnswered` | internal/delivery/mx_lookup.go:68-138 | a lookup on its own is executed, stored and answered, and leaves no call behind |
| `MxService.ThenFromCache` | internal/delivery/mx_lookup.go:74-85 | the next lookup is answered from the cache while the result lives and finds it expired after that |
| `MxService.AnswersAreBacked` | internal/delivery/mx_lookup.go:68-138 | every answer but that of an ended context classifies as the fresh answer of an execution of the run for the same domain: not older than its lifetime when read from the cache, or joined before it left the table of calls |
| `MxService.JoinedWhileAlive` | internal/delivery/mx_lookup.go:291-314 | by any clock that does not go back, a joined result was not older when the caller joined than when its owner took the call off the table |
| `MxService.LateOwnerServesOldResult` | internal/delivery/mx_lookup.go:306-314 | however old the result, an owner that is held up before deleting its call still serves it to a caller that found it expired in the cache |
| `MxService.JoinedInTimeIff` | internal/delivery/mx_lookup.go:291-314 | for every execution and every bound on the owner's delay, callers join its result within its lifetime in all runs that keep the bound, if and only if the bound is at most the lifetime |
| `Singleflight.RunKeepsInvariant` | internal/delivery/mx_lookup.go:291-314 | what every interleaving of callers keeps of the table of calls |
| `Singleflight.OneExecutionPerKey` | internal/delivery/mx_lookup.go:291-314 | at most one caller per key is between registering and deleting, and the registered call is its own |
| `Singleflight.DeletesOwnCall` | internal/delivery/mx_lookup.go:309-311 | a finishing caller removes its own call and no other |
| `Singleflight.ValueFromOverlappingCall` | internal/delivery/mx_lookup.go:296-314 | every caller returns the value of an execution for its key whose span meets its own call |
| `Srs.SplitN` | internal/srs/srs.go:325-328 | at most n pieces that join back to the text |
| `Srs.ParseEmail` | internal/srs/srs.go:480-509 | a non-empty local part without at sign, together with the domain no longer than the text |
| `Srs.NestedIsShorter` | internal/srs/srs.go:356-381 | the address inside an SRS1 local part is shorter than it, so reversing ends on every input |
| `SrsRoundTrip.TimestampRoundTrip` | internal/srs/srs.go:417-477 | the stamp of day d is accepted on day e exactly when (e-d) mod 1024 is at most the maximum age, through shifts, masks and alphabet |
| `SrsRoundTrip.ParsePrinted` | internal/srs/srs.go:480-509 | a printed address parses back into its parts |
| `SrsRoundTrip.Srs0Splits` | internal/srs/srs.go:238-256 | an SRS0 local part splits back into its five pieces, unless the separator is '0' |
| `SrsRoundTrip.Srs1Splits` | internal/srs/srs.go:259-282 | an SRS1 local part splits back into its four pieces, unless the separator is '1' |
| `SrsRoundTrip.ReverseFirst` | internal/srs/srs.go:323-353 | reversing an SRS0 address gives the sender back exactly for parsable separators and stamps in date |
| `SrsRoundTrip.SecondForward` | internal/srs/srs.go:212-282 | forwarding again wraps once, a third time changes nothing, and reversing unwraps; with a lower-case separator forwarding again makes the address longer |
| `SrsRoundTrip.LowerCaseNeverReverses` | internal/srs/srs.go:302-319 | with a lower-case separator no forwarded address is ever recognised |
| `SrsRoundTrip.ReverseUndoesForward` | internal/srs/srs.go:212-381 | for every n >= 1, reversing n forwardings of a plain address gives local part and lower-cased domain back if and only if the separator is parsable and the first stamp in date |
| `SrsRoundTrip.LowerCaseNeverSettles` | internal/srs/srs.go:223-235 | with a lower-case separator every forwarding makes the address longer |
| `SrsRoundTrip.StableIff` | internal/srs/srs.go:212-282 | the address is a fixed point from the second forwarding on, and has a bounded length, if and only if the separator is not a lower-case letter |
| `SrsRoundTrip.AcceptedIsSigned` | internal/srs/srs.go:296-381 | an address is reversed only if it is a chain of SRS1 wrappings with the right hash at every level around an SRS0 text with the right hash and a stamp in date, for the sender returned |
| `SrsRoundTrip.ClaimIsChecked` | internal/srs/srs.go:323-353 | an SRS0 text is refused for its stamp first, then for its hash, and otherwise gives the sender it names |
| `SrsRoundTrip.OthersAreRefused` | internal/srs/srs.go:212-319 | empty and unreadable addresses are refused in both directions, and an address without the tag is not reversed |
| `SrsRoundTrip.RewrittenDomain` | internal/srs/srs.go:142-148 | the rewriting domain, or the subdomain of it made from the sender's domain with dashes for dots |
| `SrsRoundTrip.ParsedExactly` | internal/srs/srs.go:480-509 | an address parses iff, without spaces and brackets around it, it has a single at sign that is neither first nor last |
| `LmtpWire.WriteLmtpData` | internal/delivery/delivery.go:2059-2098 | the loop sends the stuffed lines of the message and the terminating dot |
| `LmtpWire.ReceiverGetsMessage` | internal/delivery/delivery.go:2059-2098 | the receiver of section 4.5.2 of RFC 5321 gets the message with CRLF line ends and stops right after the dot |
| `LmtpWire.LoneDotOnlyAtEnd` | internal/delivery/delivery.go:2078-2097 | the lone dot is the last line on the wire and no other |
| `LmtpWire.NormalisationIsIdempotent` | internal/delivery/delivery.go:2066-2091 | normalising line ends twice changes nothing, nor does it change what is sent |
| `LmtpWire.NormalisedInParts` | internal/delivery/delivery.go:2066-2091 | whatever ends with a line feed is normalised on its own |
| `LmtpWire.NormalisedLine` | internal/delivery/delivery.go:2066-2091 | a line with LF, with a final CR, or without a line end gets CRLF; an empty message stays empty |
| `LmtpWire.NormalFormIsKept` | internal/delivery/delivery.go:2066-2091 | a message in which every LF has a CR before it and that ends with one is unchanged |
| `LmtpWire.TextIsKept` | internal/delivery/delivery.go:2066-2091 | all bytes that are not line ends are kept, in order |
| `LmtpWire.OnlyDotsAreStuffed` | internal/delivery/delivery.go:2078-2097 | on the wire are the lines of the normalised message, with one more dot on exactly those that begin with one, and the lone dot |
| `LmtpWire.ReadLmtpResponse` | internal/delivery/delivery.go:2101-2135 | the loop reads one reply, or fails as the code does |
| `LmtpWire.ReaderInvertsFormat` | internal/delivery/delivery.go:2101-2135 | reading k times from k well-formed replies (section 4.2.1 of RFC 5321) returns each code and joined text and consumes exactly their bytes |
| `LmtpWire.ReaderRefuses` | internal/delivery/delivery.go:2101-2135 | a stream without a line end, a line of fewer than three characters and a line without a number fail, each in its way; a signed number is read as such |
| `LmtpWire.JoinedBySpaces` | internal/delivery/delivery.go:2128-2134 | the texts of a reply are joined by single spaces |
| `Pool.PoolKeyIsInjective` | internal/delivery/pool.go:110-112 | for source IPs without a bar the key determines host and source IP |
| `Pool.ConnectionPool.Put` | internal/delivery/pool.go:171-196 | appended with its time, or closed when the list is full |
| `Pool.ConnectionPool.PopCandidate` | internal/delivery/pool.go:140-167 | the most recent live connection is taken, the expired ones after it are closed, other lists are untouched |
| `Pool.ConnectionPool.Get` | internal/delivery/pool.go:116-136 | the most recent connection that was neither expired when popped nor dead: every later one was expired at a reading or dead, and is closed; a live one that never expires is never passed over |
| `Pool.ConnectionPool.CleanupExpired` | internal/delivery/pool.go:78-107 | exactly the expired connections are closed and removed, empty lists dropped |
| `Pool.ConnectionPool.CloseAll` | internal/delivery/pool.go:199-220 | everything pooled is closed |
| `PoolLifecycle.RunKeepsInvariant` | internal/delivery/pool.go:78-220 | what every interleaving of requests, context ends, hooks and pool operations keeps |
| `PoolLifecycle.OwnershipIsConserved` | internal/delivery/pool.go:116-196 | every client is idle in one list, with one request, or closed |
| `PoolLifecycle.IdleListsAreOrdered` | internal/delivery/pool.go:171-196 | idle lists stay within the cap, in time order, without repetition |
| `PoolLifecycle.NoHookOnIdleClient` | internal/delivery/delivery.go:959-991 | no context hook is armed on a pooled client |
| `PoolLifecycle.RunningHookHitsOwnClient` | internal/delivery/delivery.go:966-991 | a client that a started hook has yet to close is in no idle list, and with no request but the one whose hook it is |
| `PoolLifecycle.TakenIsFreshAndOwn` | internal/delivery/pool.go:140-167 | a request is given an open client that was put under its host and source IP, at most the time to live ago |
| `PoolLifecycle.TakeReuses` | internal/delivery/pool.go:140-167 | a request gets the most recent idle client of its host and source IP if that has not expired |
| `PoolLifecycle.PutBackPools` | internal/delivery/pool.go:171-196 | after a success the client is pooled with the time, or closed if ten are idle |
| `PoolLifecycle.FinishDecides` | internal/delivery/delivery.go:968-991 | a success with the hook stopped keeps the client, anything else closes it |
| `PoolLifecycle.HooksDoTheirWork` | internal/delivery/delivery.go:959-966 | a hook is armed, starts when the context ends and closes its client; a failed NOOP closes it too |
| `PoolLifecycle.CleanupCloses` | internal/delivery/pool.go:78-107 | a cleanup closes exactly the idle clients past their time to live |
| `PoolLifecycle.CloseAllCloses` | internal/delivery/pool.go:199-220 | closing the pool closes every idle client |
| `DomainLimiter.Limiters.WaitForDomainRateLimit` | internal/delivery/delivery.go:825-882 | refill, cap, take a token if there is one; other domains untouched |
| `DomainLimiter.Limiters.CleanupDomainLimiters` | internal/delivery/delivery.go:226-253 | a cleanup that nothing interrupts drops exactly the limiters idle over ten minutes |
| `DomainLimiter.AdmissionBound` | internal/delivery/delivery.go:846-881 | after any run of events one at a time and in any length of time, at most burst plus length times rate calls are admitted |
| `DomainLimiter.AdmissionBoundWithCleanups` | internal/delivery/delivery.go:226-253 | the same with limiters dropped between the calls, if ten minutes fill a bucket |
| `DomainLimiter.SpacedCallsAreAdmitted` | internal/delivery/delivery.go:853-878 | a call at least one refill interval after the one before is admitted |
| `DomainLimiter.BurstThenRefused` | internal/delivery/delivery.go:825-882 | a new domain is admitted the configured burst of calls at once (one if none is configured), and the next is refused |
| `DomainLimiter.FillsWhileIdleMeans` | internal/delivery/delivery.go:847-858 | ten minutes fill a bucket exactly when burst times interval is at most 600 seconds |
| `DomainLimiter.DroppingIsInvisibleIff` | internal/delivery/delivery.go:226-253 | dropping idle limiters between calls changes no answer of any run if and only if ten minutes fill a bucket |
| `DomainLimiterRaces.EachLimiterBound` | internal/delivery/delivery.go:846-881 | under every interleaving, and from every good state, one limiter admits at most burst plus length times rate calls |
| `DomainLimiterRaces.AdmissionBoundUnderRaces` | internal/delivery/delivery.go:226-253 | in every stretch of every interleaving, the calls admitted are at most one more than the drops, times burst plus length times rate, and one for each call that was under way with an abandoned limiter |
| `DomainLimiterRaces.SpacedCallsAreAdmittedUnderRaces` | internal/delivery/delivery.go:825-882 | under every interleaving, a call at least one refill interval after all calls before it is admitted |
| `DomainLimiterRaces.QuietRunsSimulate` | internal/delivery/delivery.go:226-253 | when drops hit only limiters not in use and ten minutes fill a bucket, calls are answered as by one limiter that is never dropped |
| `DomainLimiterRaces.AdmissionBoundWhenQuiet` | internal/delivery/delivery.go:226-253 | such runs keep the bound of a single limiter in every stretch |
| `DomainLimiterRaces.ScheduleRuns` | internal/delivery/delivery.go:226-253 | the runs one event at a time are such runs of the interleaved system, with the same answers |
| `DomainLimiterRaces.QuietDropsAreInvisibleIff` | internal/delivery/delivery.go:226-253 | drops of limiters not in use are invisible in every interleaving if and only if ten minutes fill a bucket |
| `DomainLimiterRaces.RaceDoublesTheBurst` | internal/delivery/delivery.go:238-246 | for every configuration, calls between a cleanup's look and its deletion are admitted beyond the bound of a single limiter: two bursts at one instant for one drop, which reaches the bound under races |
| `HttpLimiter.RateLimiter.AllowRequest` | internal/handler/rate_limiter.go:52-84 | bucket created, refilled or charged as the window and tokens say |
| `HttpLimiter.RateLimiter.Cleanup` | internal/handler/rate_limiter.go:108-117 | exactly the buckets not refilled for two windows are dropped |
| `HttpLimiter.LimitIsReached` | internal/handler/rate_limiter.go:64-81 | as many requests as the limit are admitted from the first on |
| `HttpLimiter.ThenRefused` | internal/handler/rate_limiter.go:52-84 | of requests that come together exactly the limit pass, and the next passes only a window after the first |
| `HttpLimiter.TwiceTheLimitIff` | internal/handler/rate_limiter.go:52-84 | after any run, any stretch shorter than a window admits at most twice the limit, if and only if the limit is positive |
| `HttpLimiter.CleanupIsInvisibleIff` | internal/handler/rate_limiter.go:101-120 | cleaning changes neither the number admitted nor the bucket after a request, if and only if the limit is positive |
| `Cidr.AddWithCarry` | internal/config/ip_expansion.go:97-103 | the carry loop adds i modulo 256 to the length, for an address of any length |
| `Cidr.ExpandCidr` | internal/config/ip_expansion.go:61-123 | exactly the accepted sizes expand, to the stated number of consecutive addresses, strictly increasing, distinct, all with the network prefix |
| `Cidr.ExpansionIsExact` | internal/config/ip_expansion.go:61-123 | every address shares the network prefix, and each is larger than and distinct from those before it |
| `KeyStore.CacheKeyIsInjective` | internal/dkim/keystore.go:111 | the cache key determines selector and domain, as selectors hold no slash |
| `KeyStore.Store.StoreCacheEntry` | internal/dkim/keystore.go:142-173 | for any iteration order the size stays within the cap; a full cache loses its expired entries, or if there are none a single entry, a negative one as long as there is one |
| `KeyStore.EvictionMeans` | internal/dkim/keystore.go:142-173 | only expired entries go while there are any; otherwise one goes, and a positive one only if all are |
| `KeyStore.FoundMeans` | internal/dkim/keystore.go:90-138 | a key is found iff domain and selector hold no slash, backslash or double dot, are not empty, and have a usable file; the selector is the domain's own or the fallback |
| `KeyStore.NormalMeans` | internal/dkim/keystore.go:90-94 | a domain is looked up in lower case without the spaces around it |
| `KeyStore.Store.Lookup` | internal/dkim/keystore.go:90-138 | a live entry is the answer and changes nothing; otherwise the file is, and is kept for an hour, or five minutes without a key; with unchanging files every lookup finds what reading the file finds |
| `KeyStore.LookupsAnswerLikeFiles` | internal/dkim/keystore.go:90-173 | so does every lookup of every run from the empty cache, whatever falls between the two locked sections of a lookup and whatever is evicted, and the cache stays within its size |
| `KeyStore.NextLookupHits` | internal/dkim/keystore.go:114-138 | a finished lookup answers the next one for its domain from the cache, for an hour or five minutes |

## Left out

- Dialling, TLS, EHLO and DNS transport (internal/delivery/dns_resolver.go): only their outcomes enter, as arbitrary answers.
- The SMTP client library: which replies it accepts to MAIL, RCPT and DATA is an arbitrary answer; that it rejects codes below 100 and takes only 250 as the final reply is taken over.
- DKIM and ARC signing, key parsing, and the reload of the selector map (internal/dkim/dkim.go, internal/arc/arc.go, internal/dkim/keystore.go:177-253).
- HMAC, base32 and FNV: the SRS hash is an arbitrary function into the base32 alphabet; the choice of the rewriting domain and of the rotation start are arbitrary.
- SRS separators of more than one character and non-ASCII addresses: the codec takes any separator, the round trip is about one character.
- Floating point in the domain limiter: rounding is not modelled; the branch for a zero last-update time cannot be reached and is omitted.
- The timing of `dataTerminationTimeout` and of the command deadlines: a timeout is an arbitrary answer.
- Panics inside a shared lookup, which leave waiters blocked, and the recovery package.
- The order of MX records of equal preference: the model sorts stably, the library does not promise to.
- Texts of errors, logs, metrics, webhook alerts, and the last SMTP code kept with a degraded IP.
- `ExpandSourceIPs` beyond the subnet expansion: parsing and printing of addresses and their classification.
- MxLookup.MxCache.Lookup: one lookup that shares nothing; executions shared by several callers are modelled in `MxService`.
- DomainLimiter.Limiters.CleanupDomainLimiters: a cleanup that nothing interrupts; its two halves with calls in between are modelled in `DomainLimiterRaces`.
- DomainLimiter.AdmissionBoundWithCleanups: for drops between calls only, since it is false when they race; what holds then is `DomainLimiterRaces.AdmissionBoundUnderRaces`.
- DomainLimiter.DroppingIsInvisibleIff: for drops between calls only; `DomainLimiterRaces.QuietDropsAreInvisibleIff` is the same for interleaved runs.
- Cluster membership, TLS certificate storage, HTTP handlers, configuration loading and the admin program.
