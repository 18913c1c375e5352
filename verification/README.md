# AI Gateway: a verified model

The AI Gateway is a proxy between coding tools and model providers. It checks a request in against an app's pool of
logins, sends it upstream, fails over between logins, streams the answer back, reads token usage off the answer while
it passes, and writes usage rows to a ledger. A second, local gateway sits in front of the cluster gateway and falls
back to local logins when the cluster gateway is down. This project models the stateful and streaming core of both, and
four smaller algorithms of the command line tool around them.

| file | models |
|---|---|
| `UsageSpec.dfy`, `UsageLemmas.dfy`, `UsageTap.dfy` | the usage tap: a whole-text specification, and the incremental machine that meets it |
| `UsageMeaning.dfy`, `UsageReading.dfy` | what the tap's counts, flags and model are, said of the events and of the JSON members they carry |
| `JsonText.dfy`, `ScanModel.dfy`, `ScanCorrect.dfy` | the top-level `model` scanner against the JSON grammar |
| `Failover.dfy` | member holds, short waits and the failover loop |
| `BodyBudget.dfy`, `LedgerBuffer.dfy`, `CacheStore.dfy` | admission of bodies, the write-behind ledger, the write-through cache |
| `LocalGateway.dfy` | the local gateway's breaker and replay rule |
| `BodyStream.dfy` | replayable bodies and peeked responses |
| `SwapLocks.dfy` | ordered lock directories |
| `HostFraming.dfy`, `LiveRender.dfy`, `EditDistance.dfy` | length-prefixed frames, in-place terminal frames, the suggestion distance |
| `Streams.dfy` | bytes, options and chunk lists shared by the others |

## How the model is built

- Objects whose methods update fields are classes with the same fields; loops are loops. Each such method is proved
  against functions of the input or of the old state, and the properties are lemmas about those functions or
  invariants all methods keep.
- Every stretch between two awaits is one atomic method, so an interleaving is a sequence of method calls in any order.
  The failover loop and the local gateway's login loop run inside one request: there every await hands the state to the
  other requests, which may change the shared tables in any way.
- Clock, network, store, credential files, the login picker, `JSON.parse` and the UTF-8 decoder are parameters: functions
  or answers about which nothing is assumed but what the contract says (a clock that does not run back, a picker that
  honours its exclusions, a decoder that never takes text back).
- A `char` is a Unicode scalar value, which is what a decoder and a path hold. Where the source counts or compares UTF-16
  code units, so does the model: the tap's caps and the order of lock paths go by code units, and the suggestion
  distance is over words of code units. Token counts and byte counts are unbounded integers; the source's stay far below
  2^53 for any body that fits its caps, except for token numbers an upstream invents.

## Where the code and its own words differ

The model follows the code.

- `scanModel` is documented to refuse bytes that are not a well-formed object. It does not look inside nested values, so
  `{"a":[x]}` passes; and it decodes a literal before it looks at it, which drops a byte order mark, so a marked number
  passes too. `ScanCorrect.ScanExact` says exactly which byte strings pass.
- `requestModel` gives no model for an object with white space before its opening brace, although that is valid JSON.
- The tap is documented to hold at most 6 sniffed bytes; it holds at most 5.
- `peek` is documented to read at most `cap` bytes. What it returns stays within the cap exactly when the whole body
  does; otherwise it returns everything up to the end of the chunk that crossed the cap.
- `assertEnd` and `readExact` take an empty chunk for the end of the stream, so bytes behind an empty chunk pass
  unnoticed; for streams without empty chunks the end check is exact.
- Against sections 9.2.5 and 9.2.6 of the WHATWG HTML Living Standard the tap differs in two ways: a `data` line needs
  its colon, and an event the body ends in is still dispatched.
- A burst hold whose retry-after is 0, or a date already past, has ended when it is set.
- A cached token list is the store's exactly for the apps in which no token was doubled since the last install. A token
  is doubled when its write resumes over a list a refresh has already read it into; the list then holds one entry twice
  until a refresh is installed. As sets, cached and stored tokens are always equal.

## Model

| member | source | states |
|---|---|---|
| UsageTap.Observe | src/gateway/usage.ts:79-171 | for any cutting of a response into chunks, the mode, counts and flags are those the whole-text specification gives for the whole body; the status is overflow before ok before unparseable |
| UsageTap.ObserveTwice | src/gateway/usage.ts:79-171 | any two cuttings of one response end with the same mode, counts, flags and status |
| UsageTap.Tap.constructor | src/gateway/usage.ts:73-77 | a content type naming an event stream wins over one naming JSON; only an unnamed body is sniffed |
| UsageTap.Tap.Write | src/gateway/usage.ts:79-91 | every field of the tap remains a function of the bytes so far, however they were cut |
| UsageTap.Tap.SniffMore | src/gateway/usage.ts:104-125 | the mode is that of the whole body's first non-white bytes; on a decision exactly the content so far is handed on, and no more than five bytes are ever held |
| UsageTap.Tap.HeadDecides | src/gateway/usage.ts:115-123 | looking at six bytes decides the mode as the whole body would, and an undecided prefix has at most five bytes |
| UsageTap.Tap.WriteJson | src/gateway/usage.ts:157-167 | the parts are the body so far, or nothing with `overflow` set once it exceeds 4 MiB |
| UsageTap.Tap.WriteSse | src/gateway/usage.ts:169-171 | the text fed is the decoder's text of all bytes so far, and the line and event state follows it |
| UsageTap.Tap.FeedText | src/gateway/usage.ts:173-191 | after any text cut anywhere the pending line and event are those the whole text leaves pending; CR, LF and CR LF (even split between two texts) are one break each |
| UsageTap.Tap.AppendLine | src/gateway/usage.ts:193-201 | the held line is the unfinished line of the text, empty and marked once longer than the cap |
| UsageTap.Tap.EndLine | src/gateway/usage.ts:203-228 | a blank line applies the event; any other line extends it, an over-long one or too much data drops it |
| UsageTap.Tap.Dispatch | src/gateway/usage.ts:230-244 | the tally becomes the one with this event applied, the event state is empty again |
| UsageTap.Tap.Result | src/gateway/usage.ts:135-155 | the tally is the report of the whole body, unfinished last event included, and asking again changes nothing |
| UsageTap.Tap.GetStatus | src/gateway/usage.ts:127-133 | overflow, then found, then unparseable, by the flags of the whole body's report; asking again changes nothing |
| UsageTap.Tap.Bounded | src/gateway/usage.ts:24-27 | however long the body: at most 5 sniffed bytes, a line within 1 MiB, event data with newlines within 1 MiB, a JSON body within 4 MiB |
| UsageLemmas.SniffStable | src/gateway/usage.ts:104-125 | a decided mode is never changed by further bytes |
| UsageLemmas.LinesExtend | src/gateway/usage.ts:173-201 | text without a break extends the last line of a text and no other |
| UsageLemmas.LinesBreak | src/gateway/usage.ts:184-189 | a break ends the last line and opens an empty one |
| UsageLemmas.LinesCrLf | src/gateway/usage.ts:177-183 | an LF after a CR adds no line, also when it comes later |
| UsageLemmas.EventsSnoc | src/gateway/usage.ts:203-244 | how the events of a list of lines change when one line is added |
| UsageLemmas.DataSnoc | src/gateway/usage.ts:216-228 | an event is dropped exactly when it was before, or its new line is over-long or takes its data over the cap |
| UsageMeaning.FlagsMeaning | src/gateway/usage.ts:203-254 | `overflow`, `bad` and `found` hold exactly when some event was dropped, was not an object, or carried usage |
| UsageMeaning.AnthropicMaxima | src/gateway/usage.ts:260-273 | each Anthropic count is the greatest value any event gives |
| UsageMeaning.OpenAiLast | src/gateway/usage.ts:275-301 | OpenAI counts are those of the last usage event; uncached plus cached is its prompt, cached tokens never exceed it |
| UsageMeaning.ModelIsLast | src/gateway/usage.ts:256-258 | the model is the last non-empty name any event gives |
| UsageReading.OpenAiBody | src/gateway/usage.ts:275-301 | a Chat or Responses JSON body, from its members: `prompt_tokens`/`input_tokens` p, `completion_tokens`/`output_tokens` q and cached c (0 where missing, negative or not finite; rounded down) give input p - min(c, p), cache read min(c, p), output q; Responses looks inside `response` first; the model is the name in the same object |
| UsageReading.OpenAiBodyWithout | src/gateway/usage.ts:275-291 | without a usage object, or with a prompt count that is missing, negative, not finite or no number, nothing is counted and only the model is taken |
| UsageReading.AnthropicBody | src/gateway/usage.ts:260-273 | an Anthropic JSON body, from its members: the four counts of `message.usage`, else of `usage`, 0 where a count is missing or none; the model of `message`, else of the root |
| UsageReading.AnthropicBodyWithout | src/gateway/usage.ts:260-264 | without a usage object in either place nothing is counted and only the model is taken |
| UsageReading.OpenAiStream | src/gateway/usage.ts:275-301 | a stream has the counts of the last event whose object carries usage, from that object's members, whatever came before |
| UsageReading.OpenAiStreamWithout | src/gateway/usage.ts:275-301 | a stream in which no event carries usage counts nothing |
| UsageReading.AnthropicStream | src/gateway/usage.ts:260-273 | each count is the greatest any event's usage object gives under its own name, and some event gives it, or it is 0 |
| UsageReading.FoundIsUsage | src/gateway/usage.ts:244-301 | usage is found exactly when some event delivers an object that carries it |
| UsageReading.StreamModel | src/gateway/usage.ts:256-258 | the model is the name in the last event that gives a non-empty one |
| UsageReading.EventText | src/gateway/usage.ts:216-241 | an event's payload is its data lines, each without one blank behind the colon, one newline between each two; none without data lines or for the closing mark alone |
| UsageReading.OpensSpelled | src/gateway/usage.ts:49-115 | the field names that decide for a stream, and the beginnings that leave it open, letter by letter |
| ScanModel.ScanModel | src/gateway/app.ts:206-309 | the index and bracket stack compute the recursive reading of the bytes |
| ScanModel.Str | src/gateway/app.ts:213-222 | the closing quote of a string, escapes skipped in pairs |
| ScanModel.Bracketed | src/gateway/app.ts:232-254 | the stack loop stops behind exactly one nested value, or refuses |
| ScanModel.SkipValue | src/gateway/app.ts:223-260 | one value is skipped: a string, a bracketed group, or what decodes to a literal or number, and nothing else |
| ScanModel.ReadMember | src/gateway/app.ts:272-308 | one member is read: an escaped key, a missing colon, a bad value or a bad separator refuses |
| ScanCorrect.RunThen | src/gateway/app.ts:233-253 | brackets that match inside a nested value leave the stack as it was, whatever strings and values lie between |
| ScanCorrect.ScanOfObject | src/gateway/app.ts:206-309 | for every well-formed object the scan is ok exactly when no top-level key holds a backslash, and its model is then the value of the last `model` member if that is a string, else none |
| ScanCorrect.ScanExact | src/gateway/app.ts:201-309 | the scan is ok exactly on the texts of a coarser grammar, with the model that grammar gives |
| ScanCorrect.RequestModelExact | src/gateway/app.ts:311-322 | with its fallback, the request's model is the object's true model, unless white space precedes the object |
| ScanCorrect.AcceptsMalformed | src/gateway/app.ts:201-254 | an input that is not JSON and passes the scan: rubbish in a nested array |
| ScanCorrect.AcceptsMark | src/gateway/app.ts:255-259 | another one: a byte order mark in front of a number |
| JsonText.NumberGrammar | src/gateway/app.ts:259 | the numbers accepted are exactly those of section 6 of RFC 8259: sign, integer part without a leading zero, fraction, exponent |
| Failover.BurstHoldUntil | src/gateway/app.ts:893-903 | a burst hold lasts the delay, or until the date, but at most a minute; fifteen seconds without either; it has ended at once exactly for a zero delay or a past date |
| Failover.ExhaustedUntil | src/gateway/app.ts:905-923 | an exhausted member is held until the latest reset time its answer names that lies ahead within a week; five minutes when it names none |
| Failover.FreshNoRepeat | src/gateway/app.ts:727-765 | if every attempt is of a member not tried since the last wait, no member is attempted twice without a wait between |
| Failover.FreshBound | src/gateway/app.ts:727-765 | attempts are at most one per member and wait, plus one round; sends at most two per attempt |
| Failover.FreshTotals | src/gateway/app.ts:867-870 | with at most 8 waits and M members: at most 9 M attempts, and sends at most 9 M times those of one attempt |
| Failover.Request.ExhaustedNames | src/gateway/app.ts:539-557 | every entry is looked at once and named exactly when its hold has not ended and the credential of a long hold has not changed; undisturbed, both tables lose exactly the others |
| Failover.Request.StillHeld | src/gateway/app.ts:543-555 | an entry goes exactly when its hold has ended or its long hold's credential changed, and then from both tables |
| Failover.Request.HoldCredentialFailure | src/gateway/app.ts:558-564 | ten minutes and the credential's signature when only a person can mend it, else fifteen seconds |
| Failover.Request.HoldQuota | src/gateway/app.ts:566-575 | which hold a quota answer sets, and until when |
| Failover.Request.WaitForShortHold | src/gateway/app.ts:576-595 | it waits exactly when waits and time are left, the client is there, some hold is short and the picker would pick without the short ones; unless the first three rule it out, the held members are those a fresh look found; it sleeps until the first short hold ends, at least a quarter second, at most what is left |
| Failover.Request.NextMember | src/gateway/app.ts:596-597 | the pick leaves out the tried members and exactly those a fresh look at the table found still held |
| Failover.Request.NobodyHeldIsTried | src/gateway/app.ts:727-732 | in a pool no attempt of the log is of a member that the look before it found still held |
| Failover.Request.NothingGoesWrong | src/gateway/app.ts:641-683 | a justified reply is no error when no credential, refresh or send fails, nobody leaves and every body can be read |
| Failover.Request.AskPicker | src/gateway/app.ts:731-732 | a refusal is recorded with what was excluded: the tried members and those whose hold outlasts the reading of the table |
| Failover.Request.TryWaiting | src/gateway/app.ts:733-740 | after a refusal it waits for a new round, or nobody is left and no wait helps |
| Failover.Request.Soonest | src/gateway/app.ts:591 | the earliest end among the held members |
| Failover.Request.Exchange | src/gateway/app.ts:641-683 | why an attempt ends as it does, step by step: the answer is that of the last send; it fails exactly for its credential, a client gone before a send, a failed send, or a failed refresh; the second send follows a 401 and a refresh; a 401 stands only where no refresh is to be had or none helps |
| Failover.Request.TryMember | src/gateway/app.ts:657-683 | an attempt at the member the picker named enters the log once, with the question, its sends and an end the world gave it |
| Failover.Request.TryNext | src/gateway/app.ts:741-764 | a further member is tried, skipped or ends the request, and is held as its answer or failure says; it ends the request exactly when the client is gone from a failed attempt or its answer's body cannot be read |
| Failover.Request.FailOver | src/gateway/app.ts:715-768 | the loop ends; a quota answer is final only when the picker refused everybody but the tried members and those still held and, unless exhaustion was proven, no wait would help; a credential error only when nobody answered, and it is that of the last member held; any other error only for what the last attempt was; the holds set are those the attempts call for, in order |
| Failover.Request.HandOn | src/gateway/app.ts:727-766 | the same of the loop over the further members, from any first attempt whose hold is set |
| Failover.Request.Serve | src/gateway/app.ts:596-768 | for all answers of the world: it terminates, at most 9 M attempts and 18 M sends, no repeat between waits, at most 90 s slept, the first good answer ends the search; every attempt is of the member picked, never of one found held, and ends as the world has it, every wait follows a refusal it can help; each kind of reply is justified: refusals, quota answers and credential errors as above, any other error by the last attempt, and a client that is gone gets no other; no error when nothing fails; with the hold tables to itself it gives up only when the picker refuses everybody it has not tried |
| BodyBudget.Budget.Reserve | src/gateway/body-budget.ts:26-50 | granted only when nobody waits and it fits, else queued last, refused when already aborted |
| BodyBudget.Budget.Want | src/gateway/body-budget.ts:27 | the size itself when it is in range, else the nearer end of the range; so it fits an empty budget |
| BodyBudget.Budget.Release | src/gateway/body-budget.ts:57-65 | gives back the grant's bytes once and grants the waiters that then fit; again, it changes nothing |
| BodyBudget.Budget.Abort | src/gateway/body-budget.ts:38-44 | the waiter alone leaves, and those behind it that fit are granted |
| BodyBudget.Budget.Pump | src/gateway/body-budget.ts:67-77 | the longest start of the queue that fits is granted, in order; afterwards the head does not fit |
| BodyBudget.TotalRemove | src/gateway/body-budget.ts:62 | the sum of the reservations loses exactly the one taken away |
| BodyBudget.Budget.AllServed | src/gateway/body-budget.ts:1-7 | once every holder released, nobody waits, nothing is used, and everybody who did not leave was granted in order of arrival |
| BodyBudget.Budget.InArrivalOrder | src/gateway/body-budget.ts:67-77 | who arrived earlier and did not leave is granted earlier: no newcomer overtakes |
| LedgerBuffer.Ledger.Push | src/gateway/ledger-buffer.ts:54-61 | the row is queued, the oldest queued row making way when full; a closed ledger counts it as dropped |
| LedgerBuffer.Ledger.Trim | src/gateway/ledger-buffer.ts:63-69 | keeps the newest `max` rows and counts the others |
| LedgerBuffer.Ledger.Flush | src/gateway/ledger-buffer.ts:71-83 | starts one flush, never two |
| LedgerBuffer.Ledger.BatchAnswered | src/gateway/ledger-buffer.ts:82-98 | a stored batch is stored once; a data error isolates it; an outage puts it back in front |
| LedgerBuffer.Ledger.RowAnswered | src/gateway/ledger-buffer.ts:106-121 | only a row rejected for its data is given up; an outage puts it and the untried rows back in order |
| LedgerBuffer.Ledger.Close | src/gateway/ledger-buffer.ts:123-128 | no row is taken any more; the first call at rest starts a last flush, any other leaves queue and flush alone |
| LedgerBuffer.Ledger.CloseEnded | src/gateway/ledger-buffer.ts:128-135 | once the last flush is over, what is still queued is dropped and counted |
| LedgerBuffer.Ledger.Accounted | src/gateway/ledger-buffer.ts:54-135 | pushed = stored + in flight + queued + dropped; queue and flight within `max` + 500; the rows stored are a subsequence of the pushes, none twice |
| LedgerBuffer.CutPicks | src/gateway/ledger-buffer.ts:63-69 | losing any stretch of the kept rows leaves a subsequence of push order |
| LedgerBuffer.FlushAll | src/gateway/ledger-buffer.ts:100-121 | with a store that rejects bad rows and is otherwise up, one flush stores exactly the good rows in order and counts the bad ones |
| LedgerBuffer.CloseAll | src/gateway/ledger-buffer.ts:100-135 | with a store that rejects bad rows and is otherwise up, closing at rest or during a flush stores exactly the good rows still to be written, in order, drops only the bad ones, and takes no row afterwards |
| CacheStore.Cached.Begin | src/gateway/cache-store.ts:58-85 | a write starts after the first load, one at a time |
| CacheStore.Cached.InnerCommits | src/gateway/cache-store.ts:59 | the database does the write first; the cache still shows the old view |
| CacheStore.Cached.ResumePut | src/gateway/cache-store.ts:58-63 | the app is set, a new app gets an empty token list, the version moves, the cache equals the store |
| CacheStore.Cached.ResumeAdd | src/gateway/cache-store.ts:65-69 | the token is appended, the version moves, the cache equals the store; its app counts as doubled when the cached list already was the store's |
| CacheStore.Cached.ResumeExpire | src/gateway/cache-store.ts:71-78 | tokens without an expiry get one, the version moves, the cache equals the store |
| CacheStore.Cached.ResumeRevoke | src/gateway/cache-store.ts:80-85 | the app is marked revoked, the version moves, the cache equals the store |
| CacheStore.Cached.WarmInstalls | src/gateway/cache-store.ts:27-32 | a snapshot is installed exactly when no write went through since it began; either way the cache equals the store when no write is between them; an install mends every doubled list |
| CacheStore.Cached.QuietIsCoherent | src/gateway/cache-store.ts:5-11 | in every reachable state without a write between database and cache, apps equal the store's and every app's tokens equal the store's as sets |
| CacheStore.Cached.SameListUnlessDoubled | src/gateway/cache-store.ts:27-32 | in every reachable state without a write between database and cache, an app's cached list is the store's exactly when no token of it was doubled since the last install, and else it is the store's list with one entry twice |
| CacheStore.AddCatchesUp | src/gateway/cache-store.ts:65-69 | whatever the cache showed of the store before and after the write, appending the token leaves the store's list, or that list with its last entry twice |
| CacheStore.ExpireCatchesUp | src/gateway/cache-store.ts:71-78 | expiring in the cache follows expiring in the store, list by list |
| CacheStore.Cached.TokensOf | src/gateway/cache-store.ts:54-56 | a read returns the store's tokens as a set, and as a list exactly for the apps not doubled |
| CacheStore.ExpireSameSet | src/gateway/cache-store.ts:71-78 | expiring keeps token lists equal as sets |
| CacheStore.ExpireKeeps | src/gateway/cache-store.ts:71-78 | an expiry already there is kept, the others get `at`, and apps, hashes and order stay |
| CacheStore.DuplicateListing | src/gateway/cache-store.ts:65-69 | a run that lists one token twice |
| LocalGateway.Gateway.Arrive | src/gateway/local.ts:340-347 | where a request goes; at most one probe is in flight, and none starts within `breakerMs` of a failed one |
| LocalGateway.Gateway.RemoteEnds | src/gateway/local.ts:349-364 | only a probe's answer closes the breaker; while it is open no other outcome moves mode, probe time or since; only a sure failure of a replayable request goes on to the logins |
| LocalGateway.Gateway.RemoteFailed | src/gateway/local.ts:122-128 | a late failure of an older request changes nothing while open; any other opens the breaker for `breakerMs` |
| LocalGateway.Gateway.RemoteOk | src/gateway/local.ts:129-134 | only a probe closes the breaker |
| LocalGateway.Gateway.SetMode | src/gateway/local.ts:116-121 | the time of the last change is kept when the mode stays |
| LocalGateway.Gateway.ServeDirect | src/gateway/local.ts:364 | a request served by the logins keeps the replay rule: a streamed body is sent once in all, any body at most twice per member, and only if it was surely not served elsewhere; its reply is what the world made of its turns |
| LocalGateway.Direct.Try | src/gateway/local.ts:203-227 | why a turn ends as it does, step by step: it fails exactly for its credential, a stale login found signed out, a failed send, or a refresh that failed for another reason than a cooldown; the answer is that of the last send, at most two and one for a streamed body; a 401 stands only where no refresh is to be had or it cools down |
| LocalGateway.Direct.TakeTurn | src/gateway/local.ts:248-275 | what a member's turn means for the request: the next member, or which reply, the client being gone exactly when it was found so; the turn ended as the world had it |
| LocalGateway.Direct.Serve | src/gateway/local.ts:237-290 | the members have their turns in order, each ending as the world has it; the reply is the first usable answer, else the last quota answer, else a signed-out login before a passing failure; signed out only when some member's login is; an answer whenever nothing fails; a client is given up exactly when found gone by a turn without an answer; send bounds over all members |
| LocalGateway.Causes | src/gateway/local.ts:276-290 | signed out only when a credential or refresh of some member said so; an answer is relayed whenever no credential, refresh or send fails, nobody leaves and every body can be read |
| SwapLocks.LockOrderOrdered | src/identities/claude-swap-lock.ts:170-178 | the same directories, each once, strictly increasing by lock path |
| SwapLocks.LessByUnits | src/identities/claude-swap-lock.ts:170-175 | the order of the lock paths is that of their UTF-16 code units: the first unit that differs decides, a proper prefix comes first |
| SwapLocks.OrderUnique | src/identities/claude-swap-lock.ts:170-172 | there is only one such list, so every caller orders alike |
| SwapLocks.PathInjective | src/identities/claude-swap-lock.ts:128-130 | different resolved directories have different lock paths |
| SwapLocks.LockPathInjective | src/identities/claude-swap-lock.ts:128-134 | two locks of resolved directories, of either kind, with the same path are the same lock |
| SwapLocks.PlansIncrease | src/identities/claude-swap-lock.ts:141-187 | both kinds of callers take their locks in one global order |
| SwapLocks.NestedIsFlat | src/identities/claude-swap-lock.ts:180-187 | ordering the rest again at every level of the recursion changes nothing: the locks are taken in the order of the whole list |
| SwapLocks.StepKeepsInv | src/identities/claude-swap-lock.ts:93-126 | every step keeps one owner per lock directory |
| SwapLocks.Exclusive | src/identities/claude-swap-lock.ts:93-103 | no lock is held by two callers |
| SwapLocks.NoDeadlock | src/identities/claude-swap-lock.ts:180-187 | while a caller is unfinished, one can go on without waiting for anybody |
| SwapLocks.StepsEnd | src/identities/claude-swap-lock.ts:140-187 | every step uses up work |
| SwapLocks.Runs | src/identities/claude-swap-lock.ts:93-187 | any run of any callers, giving up included, keeps mutual exclusion, is bounded, never needs anybody to give up, and leaves no lock behind |
| HostFraming.EncodeJsonFrame | src/host/protocol.ts:12-19 | refuses exactly the headers over 64 KiB; else four bytes of length and the body |
| HostFraming.BigEndianRoundTrip | src/host/protocol.ts:16 | the length prefix reads back as the length |
| HostFraming.MostSignificantFirst | src/host/protocol.ts:16-46 | the four bytes of a length are its digits in base 256, the most significant first |
| HostFraming.Reader.ReadExact | src/host/protocol.ts:24-42 | exactly the next bytes, however chunked; leftovers and unread chunks together are the rest; out-of-range lengths and short streams fail |
| HostFraming.Reader.ReadJsonFrame | src/host/protocol.ts:44-51 | the frame at the start of the unread bytes, and nothing behind it is consumed; a prefix beyond 64 KiB is refused whatever follows |
| HostFraming.Reader.ReadRequest | src/host/protocol.ts:53-64 | header, checks and payload of the unread bytes, and nothing behind them is consumed |
| HostFraming.Reader.AssertEnd | src/host/protocol.ts:70-74 | passes exactly when nothing can be read any more; without empty chunks, exactly when nothing trails |
| HostFraming.CheckRequest | src/host/protocol.ts:54-61 | accepts exactly the headers of valid requests; an unknown field, a preview out of place and a payload out of place are each refused exactly as what they are |
| HostFraming.RoundTrip | src/host/protocol.ts:12-74 | any valid request, payload and trailing bytes in any non-empty chunks: exactly the request and payload come back, and the end check passes exactly when nothing trails |
| HostFraming.EmptyChunkHides | src/host/protocol.ts:70-74 | a run in which the end check passes with bytes unread behind an empty chunk |
| LiveRender.TruncateToWidth | src/cli/live.ts:60-79 | a line that fits is unchanged; else the start of the line with as many visible characters as fit, escapes whole, then an ellipsis and a full reset |
| LiveRender.VisibleOfKeep | src/cli/live.ts:63-79 | the text kept by the cut shows exactly the first visible characters and the ellipsis |
| LiveRender.FeedMoveUpAndClear | src/cli/live.ts:14-20 | a terminal reading the redraw prefix moves up as many rows as it spells and clears from there |
| LiveRender.FeedBody | src/cli/live.ts:156-157 | a terminal reading the joined lines writes their visible text, a row each |
| LiveRender.ClearShows | src/cli/live.ts:157 | the old frame goes and nothing above it |
| LiveRender.WriteLinesShows | src/cli/live.ts:156-158 | lines no wider than the screen and fewer than its rows take a row each |
| LiveRender.Live.Clamp | src/cli/live.ts:138-155 | every line within the width, at most height - 1 lines, a marker counting the rest |
| LiveRender.Live.Draw | src/cli/live.ts:138-159 | the screen below the untouched text is exactly the new frame, whatever the heights of old and new |
| LiveRender.Live.Erase | src/cli/live.ts:180-182 | the frame is gone and the cursor is where the frame began |
| LiveRender.Animate | src/cli/live.ts:130-186 | after any sequence of frames the text above is untouched and the last clamped frame stands below it |
| EditDistance.Distance | src/cli/help.ts:197-205 | the two-row loop returns the least number of inserts, deletes and replacements turning one word into the other |
| EditDistance.DistIsLeast | src/cli/help.ts:197-205 | the recurrence in the rows is that least number: a script reaches it and none is shorter |
| EditDistance.ScriptBound | src/cli/help.ts:201 | no script gets from one word to another in fewer steps than their distances differ |
| EditDistance.Symmetric | src/cli/help.ts:197-205 | the distance is the same both ways |
| EditDistance.Triangle | src/cli/help.ts:197-205 | a detour is never shorter |
| EditDistance.ZeroIsSame | src/cli/help.ts:197-205 | only equal words have distance zero |
| BodyStream.ReadBody | src/gateway/app.ts:73-103 | a body is buffered exactly when it is within the limit (or its declared length says so), else handed on as a stream; what it carries is the original, byte for byte |
| BodyStream.Chained.Pull | src/gateway/app.ts:105-121 | each pull yields the next piece of what remains, and the stream closes exactly at its end |
| BodyStream.Chained.Drain | src/gateway/app.ts:105-121 | whoever reads the stream to its end receives what remained |
| BodyStream.Join | src/gateway/app.ts:88-94 | the chunks copied one after another are the body |
| BodyStream.Peek | src/gateway/app.ts:163-187 | a start of the body; `whole` exactly when the body fits the cap, which is exactly when the returned bytes do; the response made again carries the same bytes |
| BodyStream.PeekPastCap | src/gateway/app.ts:163 | for every cap a body of which more than the cap is returned |

## Left out

- UTF-8 decoding, `JSON.parse`, regular expressions and hashing: given functions. The streaming decoder is assumed not to depend on how its bytes were cut.
- Writes to a usage tap after its result was asked for: the gateway never makes them.
- Costs, prices, daily caps, metrics, logging, alerts, administration, HTTP headers, path and query checks, token checks and secret scanners: branch facts without state.
- The picker's choice (`chooseBest` is not part of this model): any allowed member outside the exclusions.
- Failover.BurstHoldUntil: does not model fractions of a millisecond; delays and dates arrive parsed, because `Number` and `Date.parse` are given.
- Failover.Request.Serve: does not model the shape of the 429 and 502 answers, only which answer or error the client gets.
- CacheStore.Cached.QuietIsCoherent: does not model a write overlapping the first load, two writes at once, or other instances of the gateway: the code makes no promise there. The store is taken to list an app for every token it keeps.
- LedgerBuffer.Ledger.BatchAnswered: does not model an append that stores part of a batch before it fails; the store appends a batch in one statement. Which errors are data errors is the store's answer.
- LocalGateway.Gateway.ServeDirect: does not model the awaits inside the login loop as steps of their own; the loop touches nothing other requests share but the log of reported logins.
- LocalGateway.Gateway.RemoteEnds: does not model how an outcome is told apart (error codes, edge bodies, the idle timer); the outcome is a parameter.
- SwapLocks.Runs: does not model breaking a stale lock, the renewal of a held one, the polling clock, or a `stat` or `rmdir` that fails on a lock just taken or given back: a wait that ends early, or a failing `mkdir`, is a step that gives up. A callback that takes further locks of its own is not modelled.
- SwapLocks.PlansIncrease: does not model a relative directory: `withClaudeLocks` takes its one directory as it is given, and the model takes it resolved.
- HostFraming.Reader.ReadJsonFrame: does not model UTF-8 checks; the parser is given.
- LiveRender.Live.Draw: does not model a terminal that is resized, wide or combining characters, characters outside the basic plane (two code units, which a cut can part), or control characters in the text; one character takes one column, and a line feed also returns the carriage.
- BodyStream.ReadBody: does not model how the runtime refuses a body longer than its declared length, only that it does; cancelling a stream is left out.
- The spinner, cursor visibility, signal handling and timers of the live region.
- Pairing, browser bindings, backups, quotas of the Postgres store and the command line around them: plumbing.
