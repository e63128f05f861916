# Gateway models

Dafny models of the gateway in front of an S3 store, with proofs. `dafny verify dfyconfig.toml`
checks all of it.

## What is modelled

**Rate limiter** (`TokenBuckets.dfy`, `LimiterTheorems.dfy`, `RateLimiter.dfy`). One token bucket
per client key in a shared map, refilled lazily and capped at the burst, with a sweep that any key's
call may trigger and that deletes idle buckets. `TokenBuckets` gives a run of calls its meaning as a
fold over values; `RateLimiters` is the object itself, a map of mutable buckets updated in place,
proved against that meaning. Two reference definitions stand beside it: a private limiter that
serves one key and never sweeps, and an admission rule that mentions only the call times and the
decisions. `LimiterTheorems` says for which rates and bursts the shared limiter equals the first in
every run, satisfies the second, and keeps the classic bound.

**Bucket statistics** (`StatsWalk.dfy`, `StatsCache.dfy`, `StatsProtocol.dfy`,
`StatsInvariant.dfy`, `StatsSteps.dfy`, `StatsTheorems.dfy`). The bounded listing walk with 64-bit
totals; the TTL cache with its in-flight table; and the whole endpoint as a transition system over
any number of concurrent requests. The mutex is explicit there: closing the channel and storing the
result are two steps that hold the lock, so that waiters can wake up in between. The endpoint's
cache steps use the same functions the cache object's methods are proved against. The statement
about what a waiter sees, the load bound and the progress argument are proved for every run, with a
backend that may answer anything, a client that may cancel, and a clock that may advance between any
two steps.

**CSV preview** (`Csv.dfy`, `CsvTheorems.dfy`). The capped parser with its look-ahead and early
exit, proved equal to "read everything, then cut"; the uncapped reading is proved to invert every
printer that follows section 2 of RFC 4180, and wider ones: any mix of LF, CRLF and lone CR, quotes
inside bare fields, and text after a closing quote.

**Access control** (`Acl.dfy`, `AclTheorems.dfy`, `Claims.dfy`, `Listings.dfy`, `ProxyGate.dfy`).
The per-request decision, the merged permission table, the wildcard grant, the two listings and the
proxy's gate, each computed by its own code, and the theorems that they agree for every list of
groups; and the way from a token's claims to that list.

**Web client** (`PathCodec.dfy`, `StatsPool.dfy`, `StatsPoolTheorems.dfy`, `StatsPoolSessions.dfy`).
The path codec against the server's fallback splitter, and the four-worker statistics loader as a
transition system over listings, page effects and responses in any order. A listing clears the set
of requested names while older calls go on, so the theorems about one session start from whatever
earlier sessions left queued and in flight.

`Prelude.dfy` and `Text.dfy` hold the option and result types, the string operations, and Go's
string order.

## Results where the code does less than its description

- Eviction is described as a bound on memory. It is unobservable exactly when
  `burst <= 10 * ratePerMinute` or the burst is not positive (`EvictionUnobservableIff`), and the
  bound on windows holds exactly when `0 <= burst <= 10 * ratePerMinute` (`WindowBoundIff`).
  With a larger burst, a client that spends it and waits just over ten minutes is served twice its
  burst, more than that window's allowance (`SlowRefillBreaks`). The deployed limiter (20 a minute,
  burst 10) meets both conditions.
- A comment at `internal/webui/stats.go:49-52` says that followers are served the cached previous
  value while a walk is under way. In the code a request is answered at once exactly when the
  cached entry is fresh (`ArrivalIff`); a follower is answered only after the walk has ended
  (`AwaitedAfterWalk`), even when an older value is cached (`FollowerWaitsDespiteEntry`).
- A comment at `web/src/store/buckets.ts:40-42` says that the guard keeps the page from requesting
  a name again while it is in flight. A new listing clears the guard and leaves older calls running,
  so a session keeps to one request per name exactly when no older call still holds a name the new
  list wants, and older calls hold no name twice (`SendsAtMostOnceIff`). The page and the shell
  around it (`web/src/pages/Buckets.tsx:11`, `web/src/components/AppShell.tsx:68-70`) may both ask
  for the list while it is empty; `SameListTwice` is what follows when both answers bring the same
  list.
- A bucket that a group names but the backend does not list gets no wildcard rights in the web
  listing, so its row can show less than the decision grants; `RowIsExactIff` says exactly when, and
  `UnlistedBucketFallsShort` is an example.
- A file whose last row is one empty field and has no line break loses that row (`ReadOpen`,
  `OpenRoundTrip`; an example is `EmptyLastRowIsLost`). The comment on the parser names CR, LF and
  CRLF as row breaks; a lone CR followed by a line that prints as a lone LF reads as one CRLF, and
  no other printed row is ever lost (`ReadPrinted`, `RoundTripIff`).
- The comment at `internal/auth/claims.go:61-63` describes the default groups as the `groups` array
  merged with `realm_access.roles`. That equals the two claims read as configured claims exactly when
  neither is a nonempty string, string list or object (`DefaultIsTwoClaims`; an example is
  `StringClaimDiffers`).
- Handlers take bucket and key from the router, and from the fallback splitter only when one of the
  router's values is empty (`internal/webui/api.go:477-495`; `RequestRoundTripIff`). The fallback
  splitter recovers them exactly when the separator first occurs right after the bucket
  (`PathRoundTripIff`), which holds for every bucket name without a slash (`PathRoundTrip`) and for
  none that contains the separator (`SlashedBucketFails`).

## Conventions

- Times and tokens are reals, in seconds; a run's clock never goes back. The clock is a parameter of
  each call, and a clock step of its own in the endpoint model.
- `lastGC` holds `None` where Go holds its zero time, which is further back than any idle time.
- A listing call and its reply are two steps, and time may pass between them; a failing or cancelled
  backend call is a failed reply. A request arrives at the moment it takes the lock for the first
  time.
- A map is read in an arbitrary order wherever Go ranges over one. The library sort is an insertion
  sort, of which only sortedness and the elements are used.
- In the path codec text is its UTF-8 bytes, each written as the character with that code.
- `listed`, `past`, `issued` and `answered` in the loader, and `source` and the start, call and end
  times of walks in the endpoint, are records the statements need; no step's outcome depends on them.

## Model

| member | source | states |
|---|---|---|
| TokenBuckets.Isolation | internal/webui/ratelimit.go:43-85 | when an idle bucket has time to refill, the decisions for a key in any interleaved run are those of a private limiter without a sweep fed only that key's calls, and the sweep has at most forgotten a bucket that would be full again |
| TokenBuckets.TokensAreLeastAllowance | internal/webui/ratelimit.go:56-69 | the tokens a call finds are the least, over all earlier calls, of burst plus refill since that call minus calls allowed since |
| TokenBuckets.PrivateAdmitsExactly | internal/webui/ratelimit.go:56-71 | a call is denied if and only if some window that ends at it has no room for one more token |
| LimiterTheorems.AdmissionExactIff | internal/webui/ratelimit.go:32-85 | in every run of the limiter made with `ratePerMinute` and `burst`, each call of a key is denied if and only if, for some call of that key at most as late, `60 * (allowed since + 1) > 60 * burst + ratePerMinute * seconds since`; that is so for all runs exactly when the burst is at most ten minutes of refill or not positive |
| TokenBuckets.ExactAdmissionBoundsWindows | internal/webui/ratelimit.go:30-32 | exact admission implies the classic bound over any window of real time |
| LimiterTheorems.WindowBoundIff | internal/webui/ratelimit.go:30-85 | in every run and window, whatever other keys do, `60 * allowed <= 60 * burst + ratePerMinute * seconds`; that is so for all runs exactly when the burst is at most ten minutes of refill and not negative |
| TokenBuckets.NoCapacity | internal/webui/ratelimit.go:66-68 | with a burst below one token every call of every run is denied |
| LimiterTheorems.FreshClientBurst | internal/webui/ratelimit.go:30-31 | after any run, a key that has not called before is allowed exactly its first `burst` calls at once, and denied the rest |
| LimiterTheorems.SweepDropsIff | internal/webui/ratelimit.go:73-85 | a bucket is dropped if and only if the last sweep is at least 600 seconds back and the bucket has been idle for more than 600 seconds; the others stay as they are |
| LimiterTheorems.SweepIsRemembered | internal/webui/ratelimit.go:76-79 | a sweep that is due adds no bucket and sets the time of the last sweep; one that is not changes nothing |
| LimiterTheorems.SlowRefillBreaks | internal/webui/ratelimit.go:73-85 | when refill is too slow for the idle time, some run tells the sweeping limiter from the private one, is not admitted exactly, and exceeds the bound of its window |
| LimiterTheorems.EvictionUnobservableIff | internal/webui/ratelimit.go:32-85 | no run of a limiter tells that buckets are evicted or shared if and only if the burst is at most ten minutes of refill, or not positive |
| RateLimiters.TokenBucket.Take | internal/webui/ratelimit.go:56-70 | refill and consumption in place give the specified bucket and decision |
| RateLimiters.RateLimiter.constructor | internal/webui/ratelimit.go:32-40 | a new limiter is empty, refills `ratePerMinute` tokens every 60 seconds up to `burst`, and holds buckets for 600 idle seconds |
| RateLimiters.RateLimiter.Gc | internal/webui/ratelimit.go:73-85 | the sweep removes exactly the buckets idle too long, at most once per idle period, and touches no other bucket |
| RateLimiters.RateLimiter.AddMissing | internal/webui/ratelimit.go:50-54 | a key without a bucket gets a full one of its own; no other bucket changes |
| RateLimiters.RateLimiter.TakeFrom | internal/webui/ratelimit.go:56-70 | refill and consumption change only the key's own bucket |
| RateLimiters.RateLimiter.Allow | internal/webui/ratelimit.go:42-71 | the object's whole new state and its decision are those of the specified call; buckets stay unshared |
| StatsWalk.ComputeBucketStats | internal/webui/stats.go:140-162 | the walk's replies form a finished walk (every reply but the last continues, at most fifty) and the result is that walk's outcome, with 64-bit wrap-around |
| StatsWalk.AddPage | internal/webui/stats.go:151-154 | counting a page adds its objects and sizes to the totals, modulo 64-bit wrap-around |
| StatsWalk.WalkReports | internal/webui/stats.go:140-162 | if the first fifty pages hold objects of given sizes and some without a size, in any order, the walk reports how many there are and the plain sum of those sizes, and whether there are more pages, provided both numbers fit 64 bits |
| StatsWalk.WrapIs | internal/webui/stats.go:152-153 | totals that do not fit 64 bits wrap around by a multiple of 2^64 |
| StatsWalk.FailedCallFailsWalk | internal/webui/stats.go:147-150 | a listing call that fails within the first fifty fails the whole walk, whatever was counted before |
| StatsWalk.QuotaForIs | internal/webui/stats.go:164-174 | a bucket's own quota wins over the default, a bucket without one follows the default, and without either there is none |
| StatsWalk.WalkSumsFirstPages | internal/webui/stats.go:140-162 | against any fixed listing the walk reports the totals of the first fifty pages as 64-bit numbers, and is marked truncated exactly when there are more |
| StatsWalk.WalkIsExact | internal/webui/stats.go:140-162 | within S3's object and page limits nothing overflows: the totals are exact up to fifty pages and a lower bound beyond |
| StatsWalk.RepliesAreFirstPages | internal/webui/stats.go:145-159 | following continuation tokens visits the pages of a fixed listing in order, from any page on |
| StatsCaches.StatsCache.EnterLocked | internal/webui/stats.go:87-120 | ties the cache object to the entry function the endpoint's theorems are about: a fresh entry, a walk to wait for, or a new walk |
| StatsCaches.StatsCache.FinishLocked | internal/webui/stats.go:124-130 | ties the cache object to the two functions the endpoint's theorems are about: the in-flight mark goes and the open channel is closed, then a success is stored and a failure keeps the old entry |
| StatsSteps.StepKeeps | internal/webui/stats.go:70-138 | every enabled step of the endpoint keeps the invariant |
| StatsSteps.Reachable | internal/webui/stats.go:70-138 | the invariant holds after every run |
| StatsTheorems.SingleFlight | internal/webui/stats.go:96-125 | a bucket is in the in-flight table if and only if some request is walking it, and never two at once |
| StatsTheorems.ClosedOnce | internal/webui/stats.go:118-126 | no channel is closed twice, and one is closed exactly when its leader has left the walk |
| StatsTheorems.NoLostWakeup | internal/webui/stats.go:98-105 | a waiting request's channel is closed or its leader is still walking |
| StatsTheorems.NeverStuck | internal/webui/stats.go:87-130 | while a request is unanswered some step that moves a request on is enabled |
| StatsTheorems.MoveLeaves | internal/webui/stats.go:87-130 | such a step brings its request closer to an answer and no other further away |
| StatsTheorems.WorkIsBounded | internal/webui/stats.go:87-130 | over any run the steps taken and still to come are at most 102 per request that arrived: a call and a reply for each of fifty pages, closing and publishing |
| StatsTheorems.EveryBody | internal/webui/stats.go:77-138 | every 200 goes to a caller with read access and is the outcome of a finished walk of its bucket, which ended after arrival or less than the TTL before, unless the request waited for a walk that failed |
| StatsTheorems.RefusedIffNoSuccess | internal/webui/stats.go:106-115 | a woken request gets 502 if and only if no walk of its bucket has ever succeeded; never when the walk it waited for did, although the channel closes first |
| StatsTheorems.ArrivalIff | internal/webui/stats.go:87-120 | in every run a permitted request is answered at once, with the cached entry, if and only if that entry is less than 300 seconds old; otherwise it waits for the walk under way or starts one |
| StatsTheorems.RefusedOnArrivalIff | internal/webui/stats.go:70-85 | 400 exactly without a bucket name, else 403 exactly without read access, else 503 exactly without a backend; a refusal touches neither cache nor backend |
| StatsTheorems.LeaderAnswers | internal/webui/stats.go:122-137 | a leader answers with the result of its own walk, and with 502 exactly when that failed |
| StatsTheorems.AwaitedAfterWalk | internal/webui/stats.go:96-116 | in every run a request that waited is answered after the walk it waited for has ended, and arrived while that walk was under way |
| StatsTheorems.FollowerWaitsDespiteEntry | internal/webui/stats.go:49-52 | some run has a follower waiting while the cache holds an older result of its bucket |
| StatsTheorems.BackendLoad | internal/webui/stats.go:13-27 | in any window at most 50 listing calls per TTL begun are made for a bucket, answered yet or not, plus 50 for each walk of it that failed inside the window |
| StatsTheorems.WalksNeverOverlap | internal/webui/stats.go:87-130 | in every run two walks of one bucket never overlap, and a walk after a successful one starts at least the TTL after that one ended |
| Csv.ParseCsv | web/src/components/csv.ts:29-92 | header and rows are the first 500 rows of the uncapped reading cut to 50 fields, and `truncated` holds if and only if there were more rows or wider ones; the early exit changes nothing |
| Csv.RowStep | web/src/components/csv.ts:36-55 | ending a row either settles the preview whatever follows, or leaves the parser in step with the uncapped reading |
| CsvTheorems.ReadPrinted | web/src/components/csv.ts:57-84 | reading any printed table of any size gives its rows back, for every mix of LF, CRLF and lone CR, of bare fields with quotes inside, of quoted fields, and of text after a closing quote; only a line that prints as a lone LF right after a lone CR is not told apart |
| CsvTheorems.RoundTripIff | web/src/components/csv.ts:57-84 | the table comes back if and only if no line that prints as a lone LF follows a lone CR |
| CsvTheorems.PreviewRoundTrip | web/src/components/csv.ts:29-92 | such a table of at most 500 rows of at most 50 fields survives the preview unchanged and unmarked |
| CsvTheorems.ReadOpen | web/src/components/csv.ts:83-84 | without the last line break exactly a last row of one empty field is lost besides |
| CsvTheorems.OpenRoundTrip | web/src/components/csv.ts:83-84 | without the last line break the table comes back if and only if its last row is not one empty field and the lines before it come back |
| CsvTheorems.UnclosedQuote | web/src/components/csv.ts:59-71 | in a quote that is never closed the rest of the text, delimiters and breaks included, is one field |
| CsvTheorems.EmptyLastRowIsLost | web/src/components/csv.ts:83-84 | a row `a` and a row of one empty quoted field, printed without the last line break, read back as the row `a` alone |
| CsvTheorems.MoreTextExtends | web/src/components/csv.ts:57-84 | appending text can only change the last row read or add rows |
| CsvTheorems.CappedPreviewIsStable | web/src/components/csv.ts:45-55 | once a prefix has more rows than the cap, no continuation changes the preview |
| CsvTheorems.PreviewIsUnique | web/src/components/csv.ts:89-92 | the preview of a text is unique |
| Acl.ParseGroupIff | internal/acl/resolver.go:57-91 | a group gives a policy on a bucket if and only if, without leading slashes, it reads `bucket-policy` with a nonempty bucket and a known policy |
| Acl.ParsePrinted | internal/acl/resolver.go:57-91 | parsing inverts printing, with any number of leading slashes |
| Acl.CheckAccess | internal/acl/resolver.go:112-132 | allowed if and only if some group allows the method on this bucket or on all |
| AclTheorems.DecisionInWords | internal/acl/resolver.go:22-132 | a call is allowed if and only if some group, without leading slashes, reads as the bucket or `*`, a hyphen and a policy, where `ro` and `rw` cover GET, HEAD and OPTIONS, `rw` and `wo` cover PUT and POST, and only `rw` covers DELETE; no other method is ever allowed |
| AclTheorems.NamedInWords | internal/acl/resolver.go:263-276 | a bucket is named if and only if some group reads as that bucket, a hyphen and `ro`, `rw` or `wo` |
| Acl.WildcardGrant | internal/acl/resolver.go:245-257 | the union of the wildcard groups' rights, and whether there is one |
| Acl.EffectiveBuckets | internal/acl/resolver.go:263-291 | the table is strictly sorted, lists exactly the named buckets and never the wildcard, and each row is the union of its groups' rights |
| AclTheorems.MergedAllows | internal/acl/resolver.go:232-238 | a merged grant allows a method if and only if one of its groups does |
| AclTheorems.DecisionMatchesTable | internal/acl/resolver.go:112-291 | the per-request decision is the bucket's table row or the wildcard grant |
| AclTheorems.DecisionMonotone | internal/acl/resolver.go:112-132 | more groups never take a right away; order and repetition never matter |
| AclTheorems.TableUnique | internal/acl/resolver.go:278-290 | the table depends only on the set of groups, although the map is read in no fixed order |
| Text.LessIff | internal/acl/resolver.go:286-288 | the order lists are sorted by: ascending by the first differing character, a proper prefix first |
| Claims.ExtractGroups | internal/auth/claims.go:28-58 | the default groups are the strings of the two array claims, in order, each without one leading slash |
| Claims.LookupClaim | internal/auth/claims.go:115-128 | the loop finds what following the dotted path through nested objects finds |
| Claims.LookupIs | internal/auth/claims.go:115-128 | a path goes through objects only, one name at a time, to any depth; a missing name or another value ends it |
| Claims.LookupJoins | internal/auth/claims.go:115-128 | looking up a joined path is looking up its parts one after the other |
| Claims.TextsIs | internal/auth/claims.go:134-141 | an array yields exactly its strings, in order |
| Claims.StripReads | internal/auth/claims.go:160-163 | stripping removes exactly one leading slash |
| Claims.ToGroupStrings | internal/auth/claims.go:134-158 | an array's strings in order, an object's keys sorted with their multiplicities after stripping, or one nonempty string |
| Claims.Groups | internal/auth/claims.go:102-111 | the default extraction without a configured claim, else the configured claim's reading, empty when it is missing |
| Claims.GroupNamesUnique | internal/auth/claims.go:130-157 | an object claim has one reading although its keys come in no fixed order |
| Claims.StripKeepsParse | internal/auth/claims.go:160-163 | stripping a slash never changes what a group parses to |
| Claims.DefaultDecision | internal/auth/claims.go:28-58 | with the default mapping a token grants exactly what the strings in its two claims grant |
| Claims.DefaultIsTwoClaims | internal/auth/claims.go:61-80 | the default extraction equals the two claims read as configured ones if and only if neither is a nonempty string, string list or object |
| Claims.StringClaimDiffers | internal/auth/claims.go:32-40 | a `groups` claim that is the string `a-ro` gives no group by default and one when configured |
| Listings.HandleListBuckets | internal/webui/api.go:107-158 | fails exactly when a wildcard holder's backend listing fails; otherwise strictly sorted rows for exactly the named and wildcard-expanded buckets, with the union of their rights |
| Listings.Expand | internal/webui/api.go:128-140 | expanding the wildcard adds its rights to exactly the buckets the backend lists, repeated and missing names included |
| Listings.NamesListedIs | internal/webui/api.go:128-140 | the backend's names in its own order, without the missing ones; none without a backend answer |
| Listings.HandleProxyListBuckets | internal/proxy/s3handler.go:142-187 | fails exactly without a backend answer; otherwise the order-preserving filter of the backend's names |
| Listings.ListingIsSound | internal/webui/api.go:107-158 | no row of the web listing shows a right the decision refuses |
| Listings.RowIsExactIff | internal/webui/api.go:119-141 | a row shows exactly the decided rights if and only if the backend lists the bucket or the wildcard adds nothing to it |
| Listings.UnlistedBucketFallsShort | internal/webui/api.go:119-141 | a caller with `a-ro` and `*-rw` gets a read-only row for a bucket `a` the backend does not list, and may write to it |
| Listings.VisibleIffReachable | internal/proxy/s3handler.go:158-181 | the proxy shows a bucket if and only if some method on it would be granted |
| Listings.FilteredSplits | internal/proxy/s3handler.go:173-181 | the filter keeps order and repetition |
| Listings.FilteredOne | internal/proxy/s3handler.go:173-181 | it keeps a name exactly when some method on it would be granted |
| Listings.ListingsAgree | internal/webui/api.go:107-158 | the proxy shows exactly those buckets of the web listing that the backend lists |
| ProxyGate.PathBucketIs | internal/proxy/s3handler.go:189-197 | the bucket is what stands between one leading slash, if there is one, and the next slash or the end |
| ProxyGate.HasObjectKeyIs | internal/acl/resolver.go:207-227 | `/bucket/rest` addresses an object if and only if `rest` holds something other than slashes; `/bucket` does not |
| ProxyGate.SegmentsOfBucketPath | internal/proxy/s3handler.go:191-197 | the bucket the gate checks is the first segment of the trimmed path, and there is another segment exactly when the path addresses an object |
| ProxyGate.ForwardedIff | internal/proxy/s3handler.go:69-139 | exactly the verified, granted, non-administrative requests reach the backend, and a PUT, POST or DELETE among them always addresses an object |
| ProxyGate.TokenFirst | internal/proxy/s3handler.go:69-82 | whatever the path, a request without a token or with an invalid one is refused as such, and no other is |
| ProxyGate.AnswerIff | internal/proxy/s3handler.go:84-139 | with a verified token: listing or 400 exactly without a bucket, else the administrative refusal exactly for unparsable URLs, administrative queries and a PUT, POST or DELETE without an object key, else 403 exactly without a grant, else 502 exactly without a backend |
| PathCodec.EncodedIs | web/src/api/client.ts:49-58 | letters, digits and `-_.!~*'()` are sent as they are, and every other byte as `%` and two upper-case hexadecimal digits |
| PathCodec.PathIsPlain | web/src/api/client.ts:42-69 | the built path holds no `?`, `#`, space or other character that would end or change it |
| PathCodec.DecodedPath | web/src/api/client.ts:49-69 | percent-decoding the built path gives the plain path, whatever bytes bucket and key hold |
| PathCodec.FindFirst | internal/webui/api.go:510-537 | the splitter cuts at the first occurrence of the separator |
| PathCodec.ExtractNothing | internal/webui/api.go:510-537 | a path with another prefix or without the separator gives nothing |
| PathCodec.PathRoundTripIff | internal/webui/api.go:510-537 | the fallback splitter recovers bucket and key if and only if the separator first occurs right after the bucket |
| PathCodec.RequestRoundTripIff | internal/webui/api.go:477-495 | a handler given the router's values, equal to what the client encoded, sees that bucket and key if and only if both are nonempty or the fallback splitter gets them right |
| PathCodec.PathRoundTrip | web/src/api/client.ts:49-69 | the fallback splitter recovers every bucket without a slash and every key, for both routes, even if the key contains the separator |
| PathCodec.SlashedBucketFails | internal/webui/api.go:510-537 | the fallback splitter recovers no bucket name that contains the separator |
| StatsPool.BucketsStore.OnListing | web/src/store/buckets.ts:49-54 | a listing replaces the list and clears the requested names; calls under way keep their queues and requests |
| StatsPool.BucketsStore.FetchBucketStats | web/src/store/buckets.ts:59-90 | a call marks its unrequested names and sends the first four, taken from the front of its queue |
| StatsPool.BucketsStore.StartWorkers | web/src/store/buckets.ts:88-90 | the workers take the first names of the queue, one each, and leave the rest in order |
| StatsPool.BucketsStore.OnResponse | web/src/store/buckets.ts:62-86 | a response is merged into the rows of its bucket, a failure changes no row, and the worker takes its queue's next name |
| StatsPoolTheorems.WantedIs | web/src/pages/Buckets.tsx:16-19 | the page asks for exactly the readable buckets without figures, in the list's order |
| StatsPoolTheorems.FetchIs | web/src/store/buckets.ts:59-90 | a call takes exactly the names not yet requested, in order, marks them, and sends the first four, or all if there are fewer |
| StatsPoolTheorems.StepKeeps | web/src/store/buckets.ts:49-90 | every listing, effect and response keeps the ledger: every name requested in some session is queued or was sent, every name sent is in flight or was answered, and a call with a queue keeps four in flight |
| StatsPoolTheorems.SentOncePerSession | web/src/store/buckets.ts:40-61 | over any run with any number of listings a name is sent at most once for every list that wants it, and no call has more than four in flight |
| StatsPoolTheorems.PoolTerminates | web/src/store/buckets.ts:62-90 | over any run answers received, requests in flight and names queued add up to the names requested in all sessions, at most the wanted names of all lists |
| StatsPoolTheorems.PoolProgresses | web/src/store/buckets.ts:62-63 | while a call has names queued, an answer to any of its four requests can arrive and sends the next name |
| StatsPoolSessions.SessionSendsAtMost | web/src/store/buckets.ts:40-61 | a session sends a name at most once for each older call that still has it queued, and once if its list wants it |
| StatsPoolSessions.QuietSessionSends | web/src/store/buckets.ts:59-90 | once nothing is in flight a session that starts with the effect has sent every name exactly that often |
| StatsPoolSessions.SendsAtMostOnceIff | web/src/store/buckets.ts:40-61 | a session sends every name at most once in all its runs if and only if, as its list arrives, older calls hold no name twice and none that the list wants |
| StatsPoolSessions.SameListTwice | web/src/store/buckets.ts:49-61 | with more than four wanted buckets, a list that arrives twice puts eight requests in flight and sends the fifth bucket twice in one session |
| StatsPoolSessions.OrderIndependent | web/src/pages/Buckets.tsx:16-19 | whatever earlier sessions left in flight, once the effect has run and nothing is in flight the list is the same in whatever order responses came: each wanted bucket, and each an older call still asked for, carries its response |

## Left out

- Floating-point rounding in the limiter: tokens and times are exact reals.
- `clientIP`, cookies, redirects, JSON, `ServeMux` routing, signing and streaming: library behaviour around the modelled code.
- Token verification, key fetching and the OIDC exchange: the gate takes their result as an input.
- URL parsing and the table of administrative query keys: the gate takes the parsed path and whether such a key is present.
- A panic inside a leader's walk, which would leave its in-flight mark behind, and the scheduler's fairness: a walk returns, and progress is stated as "some step is enabled" with a bound on all steps.
- `context` cancellation of a request before it waits: only a waiter looks at it; a leader's shows as a failed reply.
- The order in which a woken request and others take the lock: any order the steps allow.
- The snapshot the page's effect closes over: the effect reads the list as it is when it runs.
- The loading and error fields of the bucket store; a failed listing changes nothing else.
- The router's own matching and path cleaning: its two values are inputs, and `RequestRoundTripIff` takes them as the encoded ones.
- UTF-8 encoding and lone surrogates in `encodeURIComponent`: the codec starts from bytes.
- `ExtractUser` and `ClaimMapper.User`: a short chain of fallbacks.
- `delimiterFor`: a test on the file's extension; the parser's theorems hold for either delimiter.
- The object browser store (`web/src/store/browser.ts`): its overlapping loads carry no request identity, so only its serial runs concatenate pages, and that follows from each body.
- `sanitizeFilename` and preview classification (`internal/webui/content_security.go`), quota parsing (`internal/config/config.go`): string clean-up that would add only easy members.
- The user interface, themes, translations and deployment files.
