# Verified models of the shop's client, redaction, Redis, schema and gate logic

Six parts of the repository are modelled in Dafny and proved correct over all inputs, all runs and all
interleavings. `dafny verify dfyconfig.toml` checks everything.

1. **Agent stream** (`Text`, `SseParser`, `SseStandard`, `SseChunks`, `SseWire`, `JsonValue`, `AgentStream`,
   `AgentWire`).
   The frontend's incremental parser cuts a text buffer at the first blank line; the WHATWG HTML Living
   Standard (sections 9.2.5 and 9.2.6) describes a line-by-line machine over raw text. The cutter refines
   that machine. Newlines are normalised chunk by chunk, so a chunk border inside a CR LF pair makes a
   blank line out of one line end. The exact conditions under which chunking does not matter are proved,
   with the frame that is split in two when they fail.
2. **Single-flight token refresh** (`TokenStore`, `RefreshProtocol`, `RefreshSafety`, `RefreshLaws`, `HttpClient`). Any
   number of requests interleave at the client's `await` points with a server that rotates the refresh
   cookie. `HttpClient` is the client object; the contract of each method is one action of the protocol,
   and a valid client (`Valid`, the protocol's invariant) stays valid, so what is proved of reachable states
   holds after every sequence of method calls.
3. **Redaction** (`Redaction`, `RedactionMeaning`, `RedactionNames`, `RedactionShape`, `RedactionBounds`, `RedactionKeys`,
   `RedactionWalker`, `RedactionAudit`, `RedactionTwice`). The recursive transformer, what it does to text, fields and
   ordinary data, its size bounds, exactly
   when its keys and so its text stay bounded, non-interference of withheld values, the independent walker
   and what its empty report means, and how many passes it takes until nothing changes.
4. **Redis helpers** (`RedisServer`, `RedisLock`, `RedisCounter`). The lease with compare-and-delete
   release and its fail-open path for any number of callers, the sliding counter, and the once-claim.
5. **Schema constraints** (`Ledger`, `Orders`). What the CHECK and UNIQUE constraints accept with signed
   and with unsigned 64-bit columns, and what follows for whole tables.
6. **Gate verdicts** (`GateEvidence`, `FinalGate`, `GateAgreement`). The emitter of evidence artifacts and
   the final gate that judges them later are written separately; exactly where they agree is proved. The
   emitter compares outcomes where the final gate only counts, and the final gate needs a revision where
   the emitter does not.

## Hypotheses

They appear as `requires` clauses or as the shape of the model:

- Refresh: in `Polite` runs no refresh handler throws before its first `await` (an `async` one cannot).
  `SingleFlightExact` shows that this is exactly the condition for single flight, and `PoisonForever` what
  happens otherwise: the `finally` empties the slot before the assignment fills it. A refresh
  either rotates and is delivered, or does neither.
- Redaction: the pattern scrubber, lower-casing and the digit class are functions given by `Runtime`. The
  passes theorems assume that scrubbing settles on the strings at hand (`ScrubSettles`), that the masks'
  own characters are not digits (`PlainDigits`), and, for the walker, that lower-casing leaves the key
  `__truncated__` alone (`LowerKeepsNote`).
- Strings: the bound of 4107 is for payloads whose lengths fit 64 bits and whose unknown objects have type
  names of at most 4105 characters (`OrdinarySizes`); without it the bound is that of the longest note
  the redactor writes about the payload.
- Redis: one clock in milliseconds; a key is live while the clock is before its expiry. A command answers,
  or fails before or after it took effect.
- Schema: MySQL raises an error when an unsigned subtraction is negative, or any 64-bit expression is out
  of range; the error rejects the row. Comparisons between a signed and an unsigned value are by value.
- Gates: pytest's line pattern is a function `classify` from lines to outcomes.

## Where the code and its documentation disagree

The code was followed in each case.

- `frontend/src/api/tokenStore.ts:50` says that memory being cleared is what matters when removing the
  stored token fails. `ClearThenRead` shows that the next read then restores the old token from storage.
- `backend/app/core/redaction.py:391` says that an empty list of the walker means clean, and
  `backend/app/shared/outbox/writer.py:101` relies on it for payloads that were not redacted. The walker
  stops below depth 8 and does not enter iterables that are not sequences, so a password nine lists deep is
  not reported (`HiddenLeaks`, `HiddenPassword`). The sentence holds exactly for the payloads that, if they
  leak at all, also leak where the walker looks (`EmptyMeansCleanExactly`), so for all payloads of depth at
  most 8 without such iterables (`ShallowReportExactly`).
- The same walker has false alarms: a key that is both secret-named and reasoning-named is redacted, with
  the reasoning marker, and is reported all the same (`DoublyNamedIsReported`, `RedactedReportExactly`).
- `backend/app/core/redaction.py:284-285` says that a snapshot cannot grow without limit. Nesting, width
  and strings are bounded; mapping keys come out whole, however long they are (`KeysComeOutWhole`). Key text
  is bounded exactly when the keys that come out are (`KeyBoundExactly`), and then all text is
  (`TotalTextBounded`, `TextBoundsKeys`).
- `backend/migrations/versions/20260923_1340_a7c4e91b2d63_phase4_orders_and_idempotency.py:49-52` states
  INV-006 without shipping. The constraints give it exactly when shipping is zero (`Inv006`).

## Model

| member | source | states |
|---|---|---|
| `SseParser.Separator` | frontend/src/agent/sse.ts:56 | the first place where two line feeds are adjacent, or -1 if there is none |
| `SseParser.Parser.Feed` | frontend/src/agent/sse.ts:52-80 | a chunk yields the frames of all blocks closed so far and leaves the text after the last blank line; the buffer never holds a blank line afterwards |
| `SseParser.ReadBlock` | frontend/src/agent/sse.ts:61-71 | the line loop computes the fold of the field rule over the lines of the block |
| `SseParser.CutPlaces` | frontend/src/agent/sse.ts:56-59 | every text is its raw blocks, each without a blank line of its own and closed by one, followed by the leftover; each block is parsed from its raw text |
| `SseStandard.NormaliseFirstLine` | frontend/src/agent/sse.ts:53 | the two global replacements together are the standard's line-end rule: CR LF, lone CR and lone LF each become one LF |
| `SseStandard.InterpretNormalised` | frontend/src/agent/sse.ts:53 | the standard's machine reads the same frames from raw text and from normalised text |
| `SseStandard.InterpretBlock` | frontend/src/agent/sse.ts:56-77 | from any point inside a block the standard's machine dispatches nothing before the next blank line, then that block if it has data, then starts afresh |
| `SseStandard.CutRefinesStandard` | frontend/src/agent/sse.ts:56-77 | on every text with normalised line ends the cut blocks that have a data line are exactly the events the standard dispatches, in order |
| `SseStandard.RawTextRefinesStandard` | frontend/src/agent/sse.ts:53-77 | the same for raw text with any line ends, arriving in one piece |
| `SseChunks.CutAppend` | frontend/src/agent/sse.ts:53-59 | text that arrives later never changes a block already closed |
| `SseChunks.FeedAllIsCut` | frontend/src/agent/sse.ts:52-80 | feeding chunks one by one equals cutting the individually normalised chunks in one piece |
| `SseChunks.NormaliseAcross` | frontend/src/agent/sse.ts:53 | a border inside a CR LF pair yields two line feeds where the whole text yields one |
| `SseChunks.NormalisedStreamExact` | frontend/src/agent/sse.ts:53 | the parser sees the normalised stream if and only if no border cuts a CR LF pair |
| `SseChunks.ChunkingIndependence` | frontend/src/agent/sse.ts:52-79 | without a cut pair any chunking gives the frames and the leftover of the whole text |
| `SseChunks.SafeCutExact` | frontend/src/agent/sse.ts:53 | a border between two characters is harmless in every context if and only if they are not CR and LF |
| `SseChunks.PairArrivesWhole` | frontend/src/agent/sse.ts:52-80 | two data lines joined by CR LF, arriving in one chunk, are one frame, for all contents |
| `SseChunks.PairArrivesCut` | frontend/src/agent/sse.ts:52-80 | the same text with the CR LF cut is two frames, for all contents |
| `SseChunks.CutPairSplitsAFrame` | frontend/src/agent/sse.ts:53 | the concrete counterexample to chunking independence |
| `SseWire.InertLinesChangeNothing` | frontend/src/agent/sse.ts:64-70 | comments and unknown fields have no influence on a block |
| `SseWire.FieldLineExactly` | frontend/src/agent/sse.ts:64-70 | the name before the first colon, one space dropped, no colon means an empty value; the last `event` counts and every `data` is collected |
| `SseWire.CutPrintedBlock` | frontend/src/agent/sse.ts:56-77 | a printed block is cut off as itself whatever follows |
| `SseWire.WireRoundTrip` | frontend/src/agent/sse.ts:49-81 | printed frames, with comments and keep-alive blocks anywhere and chunk borders anywhere, are read back exactly with an empty buffer |
| `SseWire.PlainPrinting` | frontend/src/agent/sse.ts:42-48 | every list of CR-free frames with one-line event names has a printing that the round trip covers |
| `AgentStream.ParseAgentEvent` | frontend/src/agent/events.ts:168-176 | a payload is accepted if and only if it is an object with a known event name, a string run id, and no chart except on a final answer; it is kept as it is |
| `AgentStream.EventOfExactly` | frontend/src/agent/sse.ts:84-97 | a frame decodes to an event if and only if its data is an object with a known name (its own `event`, else the frame's), a run and no chart except on a final answer; the event has these fields |
| `AgentStream.EventsAreDecoded` | frontend/src/agent/sse.ts:155-161 | the decoded events of a list of frames are what the frames carry, in order |
| `AgentStream.UpToTerminal` | frontend/src/agent/sse.ts:162-166 | the prefix of the events that ends with the first terminal one |
| `AgentStream.Deliver` | frontend/src/agent/sse.ts:155-167 | the frame loop delivers the decodable events up to the first terminal one and says whether there was one |
| `AgentStream.Pump` | frontend/src/agent/sse.ts:146-168 | the listener is given what the frames of all chunks carry, up to and including the first `final_answer` or `run_failed` |
| `AgentWire.EventsRoundTrip` | frontend/src/agent/sse.ts:49-97 | any list of events, named on the `event:` line, in the data or both, printed with inert lines anywhere and cut into chunks anywhere, is what the chunks decode to |
| `AgentWire.PrintedIsDelivered` | frontend/src/agent/sse.ts:146-168 | and what the listener is given of it is the list up to the first event that ends the run |
| `AgentWire.EventOnlyBlock` | frontend/src/agent/sse.ts:73-75 | a block that only names an event is a frame without data, which decodes to nothing |
| `AgentWire.CommentBlock` | frontend/src/agent/sse.ts:64 | a block of one comment is no frame |
| `AgentStream.DeliveredIsStandard` | frontend/src/agent/sse.ts:84-97 | without a cut pair the decoded events, and those up to the first terminal one, are those of the standard's reading of the whole stream |
| `AgentStream.NothingTerminalYet` | frontend/src/agent/sse.ts:151-166 | before the first terminal event nothing is withheld |
| `AgentStream.NothingAfterTerminal` | frontend/src/agent/sse.ts:151-166 | after the first terminal event nothing is delivered, whatever the server sends |
| `AgentStream.BrokenStreamDeliversPrefix` | frontend/src/agent/sse.ts:146-176 | a stream that breaks off has delivered a prefix of what the whole would have delivered |
| `TokenStore.SetThenRead` | frontend/src/api/tokenStore.ts:25-42 | a token that was set is what is read next, whatever storage does |
| `TokenStore.ClearThenRead` | frontend/src/api/tokenStore.ts:34-52 | clearing makes later reads empty if and only if the mirror entry was removed, was empty, or cannot be read |
| `TokenStore.SetThenReload` | frontend/src/api/tokenStore.ts:80-95 | after a reload the token is there exactly when it could be written, otherwise the previous mirror entry is |
| `TokenStore.Tokens.SetTokens` | frontend/src/api/tokenStore.ts:25-32 | memory and mirror after setting, for a missing pair, an empty pair and a token |
| `TokenStore.Tokens.GetAccessToken` | frontend/src/api/tokenStore.ts:34-42 | the token in memory, or else the mirrored one, which is kept |
| `TokenStore.Tokens.ClearTokens` | frontend/src/api/tokenStore.ts:44-52 | memory is emptied always, the mirror only if removal works |
| `HttpClient.NovaHttpClient.RequestInterceptor` | frontend/src/api/client.ts:227-252 | the request keeps the headers its caller gave; else it gets `Bearer` and the token the store returns, the caller's idempotency key, and a new trace id unless the path is absolute; nothing else changes |
| `HttpClient.NovaHttpClient.JoinRefresh` | frontend/src/api/client.ts:313-323 | joins the promise in the slot, or starts a refresh and fills the slot; at most one refresh is unfinished afterwards, except exactly when the handler throws at once, which leaves a failed promise there |
| `HttpClient.NovaHttpClient.HandleResponse` | frontend/src/api/client.ts:269-306 | the response handler up to its await is the protocol's Receive action; the client stays valid unless a refresh handler throws at once, which poisons it for good |
| `HttpClient.NovaHttpClient.ResumeAfterRefresh` | frontend/src/api/client.ts:282-301 | after the await the handler fails and expires the session, or replays with the token the store has then and the headers of the first attempt |
| `HttpClient.NovaHttpClient.DispatchRefresh` | frontend/src/api/client.ts:325-330 | the refresh goes out with the cookie held at that moment, which in a valid client is the generation in force, and goes out once |
| `HttpClient.NovaHttpClient.AnswerRefresh` | frontend/src/api/client.ts:325-332 | a valid client is never told that a cookie was reused; a rotation moves the cookie and the server to the same next generation |
| `HttpClient.NovaHttpClient.Dispatch` | frontend/src/api/client.ts:227-252 | a request of a valid client goes out at most twice |
| `HttpClient.NovaHttpClient.StoreRefreshedToken` | frontend/src/api/client.ts:332-337 | a refreshed token is stored and is what the store returns next, an answer without one is a failure |
| `HttpClient.NovaHttpClient.FinishRefresh` | frontend/src/api/client.ts:318-320 | the slot is emptied before any waiter continues, and then no refresh of a valid client is unfinished |
| `HttpClient.NovaHttpClient.ExpireSession` | frontend/src/api/client.ts:340-343 | the store is cleared and the session reported as expired |
| `RefreshLaws.FirstAttemptHeaders` | frontend/src/api/client.ts:227-252 | in every run the first attempt of a request carries what its caller handed in, with the token the store returned at that moment, the caller's key and the trace id made for it |
| `RefreshLaws.SuccessExactly` | frontend/src/api/client.ts:254-266 | in every run a request ends well if and only if it received a success |
| `RefreshLaws.ReplyExactly` | frontend/src/api/client.ts:277-305 | a reply settles the request as success, has it wait for the refresh in the slot, or settles it as failure, exactly by the 401-like rule |
| `RefreshLaws.ResumeExactly` | frontend/src/api/client.ts:283-301 | after the wait a request is replayed with its trace and key if the refresh succeeded, and fails if it did not |
| `RefreshLaws.RefreshStartsExactly` | frontend/src/api/client.ts:277-315 | a refresh starts if and only if a request that may refresh fails 401-like while the slot is empty |
| `RefreshLaws.RefreshSucceedsExactly` | frontend/src/api/client.ts:325-338 | in every run without synchronous throws a refresh succeeded if and only if the server answered it with a rotation and a token |
| `RefreshLaws.ExpiresExactly` | frontend/src/api/client.ts:285-304 | the session is reported as expired in exactly four cases |
| `RefreshSafety.InvKept` | frontend/src/api/client.ts:269-343 | every action keeps the invariant of slot, refreshes, waiters, cookie, requests and token store |
| `RefreshSafety.RefreshIsSafe` | frontend/src/api/client.ts:313-338 | in every interleaving at most one refresh is outstanding, an empty slot means none is, and no refresh cookie that was rotated away is ever presented |
| `RefreshSafety.FrugalReached` | frontend/src/api/client.ts:269-343 | the invariant of waiters, attempts and starters holds in every run, even if a refresh handler throws at once |
| `RefreshSafety.AttemptsBounded` | frontend/src/api/client.ts:277-300 | in every run, even then, every request has at most two wire attempts, the second with the trace and idempotency headers of the first; no refresh goes out twice, and refreshes never outnumber requests |
| `RefreshSafety.ReplayReadsStore` | frontend/src/api/client.ts:289-300 | a replay overwrites the stale header with the token the store returns then, which is that of this or a later refresh unless others touched the store |
| `RefreshSafety.ReplayAfterDelivery` | frontend/src/api/client.ts:284-300 | after a delivered refresh every waiter replays with its token or a newer one, unless the session expired or the auth store wrote in between |
| `RefreshSafety.WorkIsDone` | frontend/src/api/client.ts:269-343 | every action of client or wire decreases one measure |
| `RefreshSafety.QuiescentIsSettled` | frontend/src/api/client.ts:284-322 | when nothing is left to do every request is settled and every refresh over; the slot is empty then if and only if single flight holds |
| `RefreshSafety.EveryRunSettles` | frontend/src/api/client.ts:269-343 | every run without new requests, even if a refresh handler throws at once, ends within a bound linear in requests and refreshes, with every request settled and every refresh over; the slot is empty then if no handler threw |
| `RefreshSafety.SingleFlightExact` | frontend/src/api/client.ts:313-323 | single flight holds after a run if and only if no handler threw before its first await |
| `RefreshSafety.PoisonForever` | frontend/src/api/client.ts:314-321 | after such a throw no run ever starts another refresh |
| `RefreshSafety.PoisonedRequestFails` | frontend/src/api/client.ts:282-288 | from then on every refreshable failure ends the session without asking the server |
| `Redaction.RedactPayload` | backend/app/core/redaction.py:270-332 | the recursive descent computes the redaction of every kind of payload |
| `Redaction.RedactMappingLoop` | backend/app/core/redaction.py:302-318 | the mapping loop, with its key cap and the note that takes the place of the rest |
| `Redaction.RedactItemsLoop` | backend/app/core/redaction.py:320-327 | the sequence loop, with its item cap and note |
| `RedactionMeaning.EverythingIsScrubbed` | backend/app/core/redaction.py:250-264 | whatever holds of all text the scrubber returns, cut or not, and of the markers and notes, holds of every string that comes out, field masks aside |
| `RedactionMeaning.LeavesComeOut` | backend/app/core/redaction.py:287-300 | text comes out as the scrubber leaves it, cut at 4096; bytes and unknown objects as their notes |
| `RedactionMeaning.OrdinaryUnchanged` | backend/app/core/redaction.py:270-332 | a payload within the caps, under keys of no vocabulary, with text the scrubber leaves alone, comes back as it is |
| `RedactionMeaning.KeptEntryComesOut` | backend/app/core/redaction.py:304-317 | every kept key comes out, with the reasoning marker, else the removal marker, else the shown form of a field, else its redacted value |
| `RedactionMeaning.MaskIsShown` | backend/app/core/redaction.py:214-233 | what each mask shows: the first letter and the domain, the first three and last four digits, the first six characters, or nothing |
| `RedactionMeaning.KeysComeOutOnce` | backend/app/core/redaction.py:303-317 | no key comes out twice |
| `RedactionMeaning.ItemsComeOut` | backend/app/core/redaction.py:320-327 | the first 200 items in order, and how many more there were |
| `RedactionMeaning.MoreKeysNoted` | backend/app/core/redaction.py:305-307 | how many more keys there were |
| `RedactionMeaning.SecretNameExactly` | backend/app/core/redaction.py:198-203 | a key names a secret if and only if a marker occurs in its squashed form, which is none of the safe names |
| `RedactionMeaning.ReasoningNameExactly` | backend/app/core/redaction.py:206-208 | the same for reasoning |
| `RedactionMeaning.FieldNameExactly` | backend/app/core/redaction.py:335-353 | the first of the four groups with a marker in the key |
| `RedactionBounds.RedactBounded` | backend/app/core/redaction.py:134-137 | for every payload: nesting at most max_depth + 1, at most 201 entries per container, at most the geometric sum of 201 nodes |
| `RedactionBounds.MostNodesIsGeometric` | backend/app/core/redaction.py:134-137 | the node bound in closed form |
| `RedactionBounds.StringsBounded` | backend/app/core/redaction.py:293-332 | every string of the result is at most 4107 long, or as long as the longest note on this very payload; only strings under e-mail keys of purposes that keep masked data can be longer, by at most 3 over the longest such input |
| `RedactionBounds.OrdinaryStringsBounded` | backend/app/core/redaction.py:134-137 | for sizes that fit 64 bits every string is at most 4107 long, e-mail fields aside |
| `RedactionKeys.KeyBoundExactly` | backend/app/core/redaction.py:302-330 | for every payload and every bound, the keys of the result keep the bound if and only if the payload keys that come out of the caps, of equal keys and of withheld values do, and the note's key where one is written |
| `RedactionKeys.KeysComeOutWhole` | backend/app/core/redaction.py:308-317 | a mapping key is copied in full, so key text has no bound of its own |
| `RedactionKeys.TotalTextBounded` | backend/app/core/redaction.py:284-285 | the text of all strings and keys is bounded for payloads whose notes, kept e-mail fields and kept keys are |
| `RedactionKeys.TextBoundsKeys` | backend/app/core/redaction.py:284-285 | and a bound on all text is one on the keys that come out |
| `RedactionBounds.SecretsDoNotMatter` | backend/app/core/redaction.py:309-317 | payloads that differ only under secret or reasoning keys, or in masked strings of purposes that keep no personal data, are redacted to the same result |
| `RedactionWalker.CollectProblems` | backend/app/core/redaction.py:388-409 | the walker collects the paths of secret-named keys whose value is neither the marker nor null |
| `RedactionWalker.RedactRemovesSecrets` | backend/app/core/redaction.py:302-318 | in every redacted payload every secret-named key at any depth holds a removal marker |
| `RedactionNames.NoteKeyIsPlain` | backend/app/core/redaction.py:306 | the key the redactor adds itself is not secret-named |
| `RedactionWalker.WalkerReportsDoubleNamed` | backend/app/core/redaction.py:309-314 | on redacted payloads the walker reports exactly the keys that are both secret-named and reasoning-named |
| `RedactionAudit.ReportExactly` | backend/app/core/redaction.py:395-406 | the walker reports exactly the paths of live secret-named entries at most nine steps from the root |
| `RedactionAudit.EmptyReportExactly` | backend/app/core/redaction.py:388-409 | the report on any payload is empty if and only if no secret-named key holds a live value within mappings and sequences down to depth 8 |
| `RedactionAudit.EmptyMeansCleanExactly` | backend/app/core/redaction.py:391 | an empty report means that nothing leaks if and only if the payload, should it leak, leaks where the walker looks |
| `RedactionAudit.ShallowReportExactly` | backend/app/core/redaction.py:395-406 | for payloads of depth at most 8 without iterables that are not sequences the report is empty if and only if nothing leaks |
| `RedactionAudit.ReportMeansLeak` | backend/app/core/redaction.py:400-402 | a report on a payload that was not redacted is never a false alarm |
| `RedactionAudit.TrustedForAllNamesExactly` | backend/app/core/redaction.py:388-409 | for all conceivable key vocabularies at once an empty report can be trusted if and only if every live key is also live where the walker looks |
| `RedactionAudit.HiddenLeaks` | backend/app/core/redaction.py:395-406 | any leak goes unreported nine lists deep, or in an iterable that is not a sequence |
| `RedactionAudit.HiddenPassword` | backend/app/core/redaction.py:395-406 | the concrete unreported password |
| `RedactionAudit.RedactedReportExactly` | backend/app/core/redaction.py:388-409 | the report on a redacted payload is empty if and only if no doubly named key of the payload comes out of the caps, of equal keys and of withheld values where the walker looks |
| `RedactionAudit.CleanPayload` | backend/app/core/redaction.py:388-409 | in particular a payload without doubly named keys comes out clean |
| `RedactionAudit.DoublyNamedIsReported` | backend/app/core/redaction.py:309-314 | a concrete doubly named key is redacted and still reported, whatever it held |
| `RedactionTwice.EmailTwice` | backend/app/core/redaction.py:214-219 | masking an e-mail again changes it if and only if its local part is empty; a third time never |
| `RedactionTwice.PhoneTwice` | backend/app/core/redaction.py:222-226 | masking a phone number again never changes it |
| `RedactionTwice.AddressTwice` | backend/app/core/redaction.py:229-233 | masking an address again changes it if and only if it has at most six characters; a third time never |
| `RedactionTwice.ThreePasses` | backend/app/core/redaction.py:270-357 | within the caps, at any depths, the third pass equals the second and the second equals the first exactly on stable payloads |
| `RedactionTwice.SecondPassExact` | backend/app/core/redaction.py:270-357 | a second pass changes nothing if and only if no short address and no e-mail without local part was masked |
| `RedactionTwice.ThirdPassChangesNothing` | backend/app/core/redaction.py:270-357 | a third pass never changes anything, for any purpose |
| `RedactionTwice.NoPiiIdempotent` | backend/app/core/redaction.py:121-123 | for LLM, MCP and trace payloads redaction is idempotent |
| `RedactionTwice.ShortAddressChangesTwice` | backend/app/core/redaction.py:229-233 | the two different masks of a short address |
| `RedactionTwice.ShortAddressPayload` | backend/app/core/redaction.py:343-357 | a payload with a short address that two passes leave different, for every purpose that keeps masked data |
| `RedactionTwice.EmptyLocalChangesTwice` | backend/app/core/redaction.py:214-219 | the two different masks of an e-mail without local part |
| `RedactionTwice.EmptyLocalPayload` | backend/app/core/redaction.py:343-357 | a payload with such an e-mail that two passes leave different |
| `RedisServer.Redis.Set` | backend/app/shared/redis_client.py:167 | stores if and only if the key is not there or run out, for the TTL; a failure is told before or after it takes effect |
| `RedisServer.Redis.ReleaseScript` | backend/app/shared/redis_client.py:43-49 | the key is gone if and only if it was live and held the caller's token; nothing else changes |
| `RedisLock.Acquire` | backend/app/shared/redis_client.py:163-182 | at most max(1, ceil(timeout)) attempts when blocking and one otherwise, exactly that many when it gives up; a backend error enters unlocked with an empty token |
| `RedisLock.ReleaseOnExit` | backend/app/shared/redis_client.py:183-186 | the lock's key goes exactly if the lease is held under a real token, is live, and the backend runs the script; no other key does |
| `RedisLock.InvKept` | backend/app/shared/redis_client.py:138-186 | every action keeps tokens distinct and every unexpired lease backed by its key |
| `RedisLock.AtMostOneHolder` | backend/app/shared/redis_client.py:158-186 | for any number of clients and any failures at most one holds an unexpired lease on a name under a real token |
| `RedisLock.TogetherOnlyIfUnlockedOrExpired` | backend/app/shared/redis_client.py:146-156 | two clients are inside one lock together only if one went in unlocked or outstayed its lease |
| `RedisLock.ReleaseIsOwn` | backend/app/shared/redis_client.py:41-49 | leaving deletes nothing but the leaver's own key, and every other holder keeps its lease |
| `RedisLock.EntersExactlyIfFree` | backend/app/shared/redis_client.py:163-182 | an undisturbed attempt enters with the lease, under its own token and for its TTL, if and only if the name is free |
| `RedisLock.FirstAttempt` | backend/app/shared/redis_client.py:158-180 | a new caller gets a free name for its TTL in milliseconds, and otherwise enters without the lease or waits, by `blocking` and the time left |
| `RedisLock.ReleaseFrees` | backend/app/shared/redis_client.py:183-186 | a holder that leaves frees the name unless the backend fails before it runs the script |
| `RedisLock.NextCallerGetsLease` | backend/app/shared/redis_client.py:43-49 | whoever tries next, undisturbed, gets the lease |
| `RedisLock.LeaseRunsOut` | backend/app/shared/redis_client.py:167 | time takes a lease away, and frees the name, exactly when its TTL is over |
| `RedisCounter.RateCounter.IncrementCounter` | backend/app/shared/redis_client.py:192-208 | the count returned is the length of the longest run ending now; 0 exactly when the backend fails, and the call counts all the same when it failed after taking effect |
| `RedisCounter.RateCounter.ResetCounter` | backend/app/shared/redis_client.py:219-221 | the run starts again, unless the backend failed before the key went |
| `RedisCounter.KeyHoldsRun` | backend/app/shared/redis_client.py:200-206 | over every history the key holds the longest run and expires one TTL after its last call |
| `RedisCounter.ReturnsLongestRun` | backend/app/shared/redis_client.py:192-206 | with a fixed TTL a call returns the length of the longest run of calls since the last reset, ending now, with all gaps shorter than the TTL |
| `RedisCounter.ClaimOnce` | backend/app/shared/redis_client.py:227-239 | raised if and only if the backend fails, even after the SET took effect; taken if and only if the key is live; else claimed |
| `RedisCounter.ClaimedExactly` | backend/app/shared/redis_client.py:227-239 | an undisturbed claim succeeds if and only if every earlier effective claim is at least its TTL old |
| `RedisCounter.ClaimsApart` | backend/app/shared/redis_client.py:227-239 | two successful claims of one key are at least the TTL of the first apart, with any errors in between |
| `Ledger.SignedAcceptsExactly` | backend/migrations/versions/20260923_1235_5cbebbc7b364_ledger_quantities_signed_bigint.py:31-61 | signed columns accept exactly the integer-correct non-negative rows that fit; none is lost to overflow |
| `Ledger.UnsignedAcceptsExactly` | backend/migrations/versions/20260923_0813_05b3d5f5348b_catalog_and_inventory.py:346-394 | unsigned columns accept exactly those without a negative delta |
| `Ledger.SignednessExactly` | backend/migrations/versions/20260923_1235_5cbebbc7b364_ledger_quantities_signed_bigint.py:53-75 | the upgrade loses only rows beyond the signed range, the downgrade exactly the rows with a negative delta |
| `Ledger.LockingNeedsSigned` | backend/migrations/versions/20260923_1235_5cbebbc7b364_ledger_quantities_signed_bigint.py:44-48 | no lock of stock for an order could ever be recorded in unsigned columns, every one can in signed ones |
| `Ledger.MovementTable.TryInsert` | backend/migrations/versions/20260923_0813_05b3d5f5348b_catalog_and_inventory.py:367-408 | a row is appended if and only if its CHECKs hold and its idempotency key is new |
| `Ledger.UsedIsSeen` | backend/migrations/versions/20260923_0813_05b3d5f5348b_catalog_and_inventory.py:408 | a key is in the table if and only if an earlier attempt with it passed the CHECKs |
| `Ledger.LedgerHoldsFirstPassing` | backend/migrations/versions/20260923_0813_05b3d5f5348b_catalog_and_inventory.py:408 | over any run of attempts the table holds each key's first passing attempt, in order |
| `Ledger.QuantitiesConserved` | backend/migrations/versions/20260923_0813_05b3d5f5348b_catalog_and_inventory.py:375-394 | over any run of chained attempts with repeats and rejects the quantities are the opening ones plus the sum of distinct deltas, and never negative |
| `Orders.SignedMoneyExact` | backend/migrations/versions/20260923_1340_a7c4e91b2d63_phase4_orders_and_idempotency.py:271-281 | signed money accepts exactly the correct orders that fit, refunds capped by what was paid |
| `Orders.UnsignedMoneyExact` | backend/migrations/versions/20260923_1340_a7c4e91b2d63_phase4_orders_and_idempotency.py:269-281 | unsigned money would also reject exactly the orders whose discounts exceed the original amount |
| `Orders.ItemExact` | backend/migrations/versions/20260923_1340_a7c4e91b2d63_phase4_orders_and_idempotency.py:408-424 | what the line constraints together accept |
| `Orders.TotalAddsUp` | backend/migrations/versions/20260923_1340_a7c4e91b2d63_phase4_orders_and_idempotency.py:49-52 | the sums over lines add up line by line |
| `Orders.PayablesAddUp` | backend/migrations/versions/20260923_1340_a7c4e91b2d63_phase4_orders_and_idempotency.py:417-424 | over any number of lines the payables sum to originals less promotions less coupons |
| `Orders.Inv006` | backend/migrations/versions/20260923_1340_a7c4e91b2d63_phase4_orders_and_idempotency.py:49-52 | for lines that share out the header the payables sum to the payable less shipping, so INV-006 holds if and only if shipping is zero |
| `Orders.LineCapsBoundRefundsExactly` | backend/migrations/versions/20260923_1643_3f1ae2c55c54_phase5_payment_fulfillment_aftersales_and_refund.py:182-191 | every way of refunding lines within their caps stays within paid if and only if payable less shipping was paid |
| `Orders.FullyPaidRefundsWithinPaid` | backend/migrations/versions/20260923_1643_3f1ae2c55c54_phase5_payment_fulfillment_aftersales_and_refund.py:182-191 | a fully paid order never refunds more on its lines than was paid |
| `GateEvidence.ActualOf` | scripts/gate_evidence.py:137-141 | a test case has the outcome of its first failure, error or skipped child, and passed without one |
| `GateEvidence.OutcomesInOrder` | scripts/gate_evidence.py:93-105 | a recognised line gives its outcome, any other none, in the order of the lines |
| `GateEvidence.ParseStdoutOutcomes` | scripts/gate_evidence.py:90-106 | the recognised lines' outcomes in order |
| `GateEvidence.ParseJunit` | scripts/gate_evidence.py:109-145 | existence, parse state, count and outcomes of the report, for a missing, a malformed and a readable one |
| `GateEvidence.WeighReasons` | scripts/gate_evidence.py:295-332 | each reason to fail is given exactly when it applies, in the source's order and once |
| `GateEvidence.NoReasonsExactly` | scripts/gate_evidence.py:295-334 | reasons given exactly when they apply are none exactly when every condition for a PASS holds |
| `GateEvidence.FaultlessIsCore` | scripts/gate_evidence.py:265-334 | a missing target and a timeout always show in the exit code, and agreeing outcomes imply agreeing counts |
| `GateEvidence.Workspace.Emit` | scripts/gate_evidence.py:227-355 | PASS if and only if the core holds and report and console list the same outcomes; the document on disk says that verdict, and the exit code, outcomes, report, revision, watched paths and dirty flag that were observed; other files stay |
| `FinalGate.PassScan` | scripts/final_gate.py:44-46 | the scan finds nothing if and only if every assertion is an object marked as passed |
| `FinalGate.WatchedPass` | scripts/final_gate.py:56-65 | the last checks give PASS if and only if the commit is available and diff and status of the watched paths are empty |
| `FinalGate.WatchedExactly` | scripts/final_gate.py:56-64 | STALE, UNVERIFIED and an uncaught exception in the last checks, each if and only if |
| `FinalGate.FilesExactly` | scripts/final_gate.py:23-31 | without the proof MISSING, without a readable artifact beside it UNVERIFIED, else what the artifact says |
| `FinalGate.DocumentExactly` | scripts/final_gate.py:32-47 | for any JSON whatever: an exception, UNVERIFIED and FAIL by what the document holds, else the revision decides |
| `FinalGate.RevisionExactly` | scripts/final_gate.py:49-58 | a clean flag, a revision and watched paths are needed, then the last checks decide |
| `FinalGate.Render` | scripts/final_gate.py:68-90 | one row per gate in order; project PASS if and only if every gate passes, FAIL if and only if one fails; an uncaught exception in one gate stops it all |
| `GateAgreement.EmitLeaves` | scripts/gate_evidence.py:258-355 | whatever was on disk before, a run leaves its own report and artifact |
| `GateAgreement.WrittenIsEarned` | scripts/gate_evidence.py:334-355 | the verdict on disk is PASS if the run earned it, and FAIL if it did not |
| `GateAgreement.JudgedState` | scripts/final_gate.py:22-65 | the state the final gate gives to any run, in terms of what the run showed |
| `GateAgreement.JudgedPassExactly` | scripts/final_gate.py:32-65 | the final gate passes a run if and only if the core holds, a revision was recorded, and its watched paths are unchanged |
| `GateAgreement.VerdictsDifferExactly` | scripts/gate_evidence.py:301-334 | at an unchanged watched revision the verdict on disk and the final gate's differ if and only if the core holds and just one of these does: the outcomes agree; the revision is known |
| `GateAgreement.ProjectPassExactly` | scripts/final_gate.py:84-90 | over any list of recorded runs, project PASS means that each has the core and a revision; without exceptional runs, that every artifact on disk says PASS |
| `GateAgreement.EmitterAloneCanPass` | scripts/gate_evidence.py:189-196 | git unreadable while emitting: the artifact on disk says PASS, and no checkout makes the final gate agree |
| `GateAgreement.FinalGateAloneCanPass` | scripts/final_gate.py:38-43 | a report that calls the one passed test skipped: the artifact on disk says FAIL, the final gate PASS |

## Left out

- Parser: UTF-8 and BOM decoding, `id` and `retry` fields of the standard; the stream's error callbacks and abort signal, of which only the delivered prefix is modelled.
- Client: `fetch` and axios internals, error texts, response trace ids, other browser tabs or logins that rotate the cookie, and refreshes whose response is lost after the server rotated.
- Redaction: the patterns of the free-text scrubber (bank cards are not among those it applies), which is any function here; strings that are cut, and strings on which the scrubber does not settle, are outside the passes theorems.
- RedactionTwice.ThreePasses: assumes that the caps do not take effect, because a cut can expose a new match and a note replaced by a note changes its number.
- Redaction: a bound for type names, which Python does not give, `mask_name`, payloads that contain themselves, and mappings or iterables that change while they are read.
- Redis: eviction, flush, clock skew between clients, `retry_on_timeout` repeating a SET, `cache_*` and `counter_value`.
- Redis: the time a blocked acquire sleeps is any time, not one second; the attempt count does not depend on it.
- Ledger.MovementTable.TryInsert: keys are compared exactly, not by a MySQL collation; NULL columns, foreign keys and index DDL are not modelled, and neither are the `inventories` table and the vocabularies of the other tables.
- Ledger.QuantitiesConserved: that an attempt starts from the quantities in force is a hypothesis (`Chained`), because the writing service is not part of this model.
- Orders: the payments table repeats the cap of `orders`; after-sales, refunds, coupons and the services that write these rows are not modelled.
- Gates: the pattern of console lines, the command line, the summary, stderr and durations; of the recorded fields only those a verdict depends on are kept. Emitters with a script of their own (such as `emit_fg10_evidence.py`) are not modelled.
- Gates: JSON text and its parser; the file a gate reads is the document that was written. NaN and infinite numbers are not modelled.
