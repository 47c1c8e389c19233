# Vote-app server: poll cache, mutation pipeline and key validator

A model, in Dafny, of the core of a small Flask service in front of a poll smart
contract on the Sepolia network (`server_for_android_vote_app.py`). Clients create
polls, cast votes, and read polls and tallies; the contract is the only source of
truth, and the server keeps a process-wide read-through cache in front of it.

The model has three parts:

- **Poll cache** (`poll_cache.dfy`, module `PollCache`). The global `cache`
  dictionary is the class `Cache`, with fields `polls: Option<PollSet>` and
  `results: map<nat, seq<int>>`, plus a ghost log of every ledger read call made
  through it. `show_polls` and `show_results` are the methods `ShowPolls` and
  `ShowResults`; the source's `for` loop is the method `FillResults`. Each method is proved
  against a function on `CacheState` values (`ReadPolls`, `ReadResults`, with the
  loop as `Scan`), and the properties are lemmas about those functions. What the
  contract answers to read calls during one request is a `Ledger` value: the result
  of `getAllPolls` and, for each index, the result of `getResults(i)`. Each may be a
  value or an exception text. A later request may see a different `Ledger`.
- **Mutation pipeline** (`pipeline.dfy`, module `Pipeline`). `create_poll` and
  `cast_vote` are linear pipelines. Local checks run in a fixed order, then
  nonce, build, sign, send and wait for the receipt. The ledger client is an oracle,
  `LedgerOutcome`: the nonce fetch raised, a later step raised, or a receipt came
  back with some status. The result is an `Attempt` that holds the response, the
  client calls made and the transaction the pipeline asked to build.
  `web3.is_address` is a function parameter about which nothing is assumed.
  The gas limits, gas prices and chain id are constants.
- **Key validator** (`key_format.dfy`, module `KeyFormat`). `is_valid_private_key`
  strips whitespace (Python's `str.isspace` code points), lower-cases, drops one
  leading `0x` and then matches `^[0-9a-f]{64}$`. The regex is written as a
  per-character predicate plus a length check. `AcceptedShape` is an independent
  statement of the accepted set, proved equal to the validator.

`server.dfy` (module `Server`) holds the two mutating routes. Each one applies the
pipeline's outcome to a `Cache` object: the whole cache is cleared on a confirmed
poll creation, and one results entry is dropped on a confirmed vote. The module
also has the end-to-end "Color" scenario as a verified client method.

The model follows what the code does, including where that differs from what a reader of the service would expect:

- The nonce is fetched (lines 40 and 103) before the `try`. An exception there is
  not turned into the JSON `{"error": ...}` 500 reply; it escapes the handler, and
  the framework answers with its own 500. The model keeps this case apart as
  `Response.Crashed`. An exception in build, sign, send or wait is `Response.Failed`.
- `cast_vote` checks only the address and then the key. It never checks that
  `poll_index` and `option_index` are present; both are modelled as `Option<nat>`
  and passed to `vote(...)` unchanged.
- A `show_results` that fails part-way through its loop keeps the entries it had
  already fetched, and it keeps a `polls` value it has just fetched. So a failed
  read is not free of partial writes; `ReadResultsFailureKeeps` states what does hold.
- There is no per-index "not found" result. The loop calls `getResults(i)` only
  for missing indices in `0..len(titles)-1`, and stops at the first one that raises;
  there is no range check against a requested index.
- A reverted transaction and a failed step both answer 500 with an `error` text.
  The model names them apart (`Reverted`, `Failed`), but only the text differs on the wire.

## Model

| member | source | states |
|---|---|---|
| KeyFormat.IsValidPrivateKey | server_for_android_vote_app.py:127-133 | an accepted key, once stripped, has 64 characters, or 66 with the prefix |
| KeyFormat.IsSpace | server_for_android_vote_app.py:128 | the characters `str.strip()` removes, Python's `str.isspace()` set; none of them is an ASCII letter or digit, so stripping never eats a key character |
| KeyFormat.IsHex64 | server_for_android_vote_app.py:132-133 | exactly 64 characters of `[0-9a-f]`, none of them whitespace or `x`; this is the regex's answer on a stripped text, since `$` would also accept one final "\n", which `strip()` at line 128 has already removed |
| KeyFormat.PatternMatchAfterStrip | server_for_android_vote_app.py:128-133 | with `PatternMatch` as the regex's own answer (including a final "\n" before `$`), the validator accepts exactly the keys whose stripped, lower-cased, unprefixed text the pattern matches |
| KeyFormat.PatternAcceptsFinalNewline | server_for_android_vote_app.py:132-133 | the pattern matches 64 digits followed by "\n", which `IsHex64` rejects, so the two differ only on texts the strip never passes on |
| KeyFormat.TrimStart | server_for_android_vote_app.py:128 | the result is a suffix of the input, everything dropped is whitespace, and it does not start with whitespace |
| KeyFormat.TrimEnd | server_for_android_vote_app.py:128 | the result is a prefix of the input, everything dropped is whitespace, and it does not end with whitespace |
| KeyFormat.Strip | server_for_android_vote_app.py:128 | the stripped key neither starts nor ends with whitespace |
| KeyFormat.StripPadded | server_for_android_vote_app.py:128 | any whitespace around a text without surrounding whitespace is removed exactly: `Strip(pre + t + post) == t` |
| KeyFormat.Lower | server_for_android_vote_app.py:128 | lower-casing keeps the length and maps each character on its own |
| KeyFormat.DropHexPrefix | server_for_android_vote_app.py:129-130 | one leading "0x" is removed when present, and the text is unchanged otherwise |
| KeyFormat.ValidPrivateKeyIff | server_for_android_vote_app.py:127-133 | a key is accepted exactly when, once stripped, it is 64 hex digits in either case, or "0x" or "0X" followed by 64 such digits |
| KeyFormat.PrefixedKeysAccepted | server_for_android_vote_app.py:127-133 | `"0x" + "a"*64` and `"0X" + "A"*64` are accepted |
| KeyFormat.PaddedKeyAccepted | server_for_android_vote_app.py:128-133 | 64 hex digits with a leading space and a trailing newline are accepted |
| KeyFormat.PrefixedDigitsAccepted | server_for_android_vote_app.py:127-133 | "0x" or "0X" followed by any 64 hex digits, in either case, is accepted |
| KeyFormat.PrefixedKeyAccepted | server_for_android_vote_app.py:127-133 | a 66-character key made of "0" and "x" or "X" followed by 64 hex digits in either case is accepted |
| KeyFormat.PaddedDigitsAccepted | server_for_android_vote_app.py:128-133 | any 64 hex digits, in either case, with a leading space and a trailing newline are accepted |
| KeyFormat.WrongLengthRejected | server_for_android_vote_app.py:128-133 | a key without surrounding whitespace whose length is neither 64 nor 66 is rejected |
| KeyFormat.NonHexRejected | server_for_android_vote_app.py:128-133 | a 64-character key without surrounding whitespace whose first character is not a hex digit is rejected |
| KeyFormat.MalformedKeysRejected | server_for_android_vote_app.py:132-133 | `"a"*63`, `"g"*64` and `"0x" + "a"*63` are rejected |
| PollCache.ReadPolls | server_for_android_vote_app.py:64-72 | a hit answers the cached pair, makes no call and changes nothing; a miss calls `getAllPolls` once and answers what it returned, storing it on success and leaving the cache as it was on failure; `results` is never touched |
| PollCache.Scan | server_for_android_vote_app.py:81-84 | the loop makes at most one call per remaining index, a failure always comes from a call, and no cached index is dropped |
| PollCache.TitleMap | server_for_android_vote_app.py:80-84 | every title of the first `k` is a key of the reply, and the last of them is answered with its own index's results |
| PollCache.ReadResults | server_for_android_vote_app.py:74-87 | `polls` ends as `show_polls` would leave it; if `getAllPolls` raised, the cache is unchanged and its text is the reply; on success `polls` is present and no cached index is dropped |
| PollCache.ScanStep | server_for_android_vote_app.py:81-84 | one turn of the loop: a cached index is answered from the cache, a missing one is fetched and stored, and a raising fetch ends the loop with its text |
| PollCache.ReadPollsIdempotent | server_for_android_vote_app.py:67-69 | after a successful `show_polls`, a second one makes no ledger call and returns the same reply and state, whatever the ledger does |
| PollCache.ScanKeepsCached | server_for_android_vote_app.py:81-83 | the results loop never removes or overwrites a cached entry, and every entry it adds is what `getResults` returned for an index in range |
| PollCache.ScanCallsOnlyMissing | server_for_android_vote_app.py:81-83 | the loop calls `getResults(k)` only for indices in range that were not cached, on strictly increasing indices |
| PollCache.ScanCompletes | server_for_android_vote_app.py:81-84 | a loop that completes leaves every index in range cached and has called `getResults` for every index that was missing |
| PollCache.ScanStopsAtFailure | server_for_android_vote_app.py:81-87 | when a `getResults(k)` raises, it is the last call, its text is the error reply, `k` stays uncached, and every index before `k` is cached |
| PollCache.ScanReply | server_for_android_vote_app.py:80-85 | a loop that completes replies with `TitleMap` of the final results |
| PollCache.TitleMapKeys | server_for_android_vote_app.py:81-84 | the keys of the reply are exactly the titles |
| PollCache.TitleMapLastWins | server_for_android_vote_app.py:81-84 | `titles[j]` is answered with `results[j]` when no later title is equal to it, so of repeated titles the highest index wins |
| PollCache.ReadResultsFillsOnlyMissing | server_for_android_vote_app.py:76-85 | on success `polls` is present (and unchanged if it was present before), every index of the titles is cached, and entries already cached are unchanged |
| PollCache.ReadResultsCallsOnlyMissing | server_for_android_vote_app.py:76-84 | the calls are `getAllPolls`, only if `polls` was absent, followed by `getResults` of missing indices in range on strictly increasing indices; on success every missing index was called |
| PollCache.ReadResultsAlignment | server_for_android_vote_app.py:80-85 | on success the reply maps each title to the cached results of its index, with the highest index winning for repeated titles, and has no other keys |
| PollCache.ReadResultsFailureKeeps | server_for_android_vote_app.py:76-87 | a failed `show_results` removes and overwrites nothing; if `getAllPolls` raised, the cache is unchanged; if a `getResults(k)` raised, the entries before `k` stay cached |
| PollCache.ScanAllCached | server_for_android_vote_app.py:81-84 | when every index is already cached, the loop makes no call, changes nothing and succeeds |
| PollCache.ReadResultsIdempotent | server_for_android_vote_app.py:77-85 | after a successful `show_results`, a second one makes no ledger call and returns the same reply and state, whatever the ledger does |
| PollCache.ScanReplyCoherent | server_for_android_vote_app.py:80-85 | two caches whose entries agree with the ledger give the same loop reply, and the loop keeps the entries in agreement |
| PollCache.CoherentCacheServesLedger | server_for_android_vote_app.py:64-87 | a cache that agrees with the ledger answers both reads exactly as an empty cache would, and still agrees with the ledger afterwards |
| PollCache.EmptyCoherent | server_for_android_vote_app.py:55-57 | the cleared cache agrees with any ledger, so nothing stale is served after a confirmed poll creation |
| PollCache.DropResult | server_for_android_vote_app.py:118-120 | only `results[poll_index]` is removed; `polls` and every other entry are unchanged |
| PollCache.DropResultCoherent | server_for_android_vote_app.py:118-120 | after dropping the voted poll's entry, the cache agrees with any ledger that differs from the old one only in that poll's results |
| PollCache.Cache.constructor | server_for_android_vote_app.py:17-20 | the cache starts with `polls` absent and `results` empty |
| PollCache.Cache.ShowPolls | server_for_android_vote_app.py:64-72 | the new cache state, the reply and the ledger calls are those of `ReadPolls` |
| PollCache.Cache.ShowResults | server_for_android_vote_app.py:74-87 | the new cache state, the reply and the ledger calls are those of `ReadResults` |
| PollCache.Cache.FillResults | server_for_android_vote_app.py:80-87 | the `for` loop over the titles leaves `polls` alone and ends with the results, reply and ledger calls of `Scan` from index 0 |
| PollCache.Cache.InvalidateAll | server_for_android_vote_app.py:56-57 | the cache becomes empty |
| PollCache.Cache.InvalidateResult | server_for_android_vote_app.py:119-120 | the cache becomes `DropResult` of the old state |
| Pipeline.Message | server_for_android_vote_app.py:29-38 | each 400 text is non-empty and differs from the text of an unconfirmed transaction (lines 60 and 123) |
| Pipeline.ErrorTextsDistinct | server_for_android_vote_app.py:29-38 | two validation errors have the same text exactly when they are the same error, so the texts at lines 29, 35 and 38 (and 98 and 101) tell them apart |
| Pipeline.StatusCode | server_for_android_vote_app.py:29-62 | 200 exactly for a confirmed transaction (line 58), 400 exactly for a validation error (lines 29, 35 and 38, and 98 and 101 in `cast_vote`), 500 for a revert, a failed step and the framework's reply when the nonce fetch at lines 40 and 103 raises |
| Pipeline.Submit | server_for_android_vote_app.py:40-62 | success exactly on receipt status 1, carrying `to_hex` of the hash `send_raw_transaction` returned; a nonce failure builds nothing; otherwise what it asks to build is the call with the given parameters and the fetched nonce |
| Pipeline.Given | server_for_android_vote_app.py:28 | Python truthiness of a JSON field: false exactly for a missing field and for an empty string or list |
| Pipeline.CallsThrough | server_for_android_vote_app.py:40-53 | the client calls up to a raising step: the nonce fetch first, then steps only, ending with the one that raised |
| Pipeline.CreatePollCheck | server_for_android_vote_app.py:28-38 | an empty or missing name or options list is reported first; then a bad address; then a bad key |
| Pipeline.CreatePoll | server_for_android_vote_app.py:28-40 | a rejected `create_poll` reports the first failing check and makes no ledger-client call, and any other starts with the nonce fetch |
| Pipeline.CreatePollOutcomes | server_for_android_vote_app.py:40-62 | success exactly when the checks pass and the receipt status is 1; another status is a revert; an exception in a step is a failure with its text, after the calls up to that step; a nonce exception is a crash after the nonce fetch alone; the transaction is `createPoll(name, options)` with chain id 11155111, gas 2000000 and 25 gwei |
| Pipeline.CastVoteCheck | server_for_android_vote_app.py:97-101 | only the address and then the key are checked |
| Pipeline.CastVote | server_for_android_vote_app.py:97-103 | a rejected `cast_vote` reports the failing check and makes no ledger-client call, and any other starts with the nonce fetch |
| Pipeline.CastVoteIgnoresIndices | server_for_android_vote_app.py:92-101 | whether `cast_vote` is rejected does not depend on the poll and option indices, present or not |
| Pipeline.CastVoteOutcomes | server_for_android_vote_app.py:97-125 | success exactly when the checks pass and the receipt status is 1; another status is a revert; an exception in a step is a failure with its text, after the calls up to that step; a nonce exception is a crash after the nonce fetch alone; the transaction is `vote(poll_index, option_index)` with chain id 11155111, gas 200000 and 20 gwei |
| Server.HandleCreatePoll | server_for_android_vote_app.py:22-62 | the reply is the pipeline's; the cache is emptied exactly when the reply is a success and is untouched otherwise |
| Server.HandleCastVote | server_for_android_vote_app.py:89-125 | the reply is the pipeline's; on success only the voted poll's results entry is dropped, otherwise the cache is untouched |
| Server.CreateColorConfirmed | server_for_android_vote_app.py:22-62 | with a valid account and key, a receipt of status 1 makes `create_poll` of "Color" with "Red" and "Blue" succeed |
| Server.VoteColorConfirmed | server_for_android_vote_app.py:89-125 | with a valid account and key, a receipt of status 1 makes `cast_vote` for option 1 of poll 0 succeed |
| Server.ColorScenario | server_for_android_vote_app.py:22-125 | with a valid account and key, after creating "Color" with "Red" and "Blue", the listing is that poll, the results are `[0, 0]`, and after a confirmed vote for option 1 the results read `[0, 1]` |

## Left out

- The Flask application, routing, `request.json` and `jsonify`: this is framework I/O. Replies are `Response` and `Result` values, and `StatusCode` gives the HTTP status.
- The web3 and Infura calls: these are foreign calls. Read calls are the `Ledger` value. `get_transaction_count`, `build_transaction`, `sign_transaction`, `send_raw_transaction` and `wait_for_transaction_receipt` are the `LedgerOutcome` oracle. `is_address` is the `isAddress` parameter. `Mined.txHash` is the text `to_hex` gives for the hash `send_raw_transaction` returned (lines 51 and 58, 114 and 121).
- `to_wei`: only its results are stated, as the constants 25 gwei and 20 gwei in wei.
- The endpoint, contract address and ABI file (lines 8-15): these are configuration and file I/O.
- What keys and signatures mean cryptographically: the validator is a shape check only, and signing is one step of the oracle.
- Concurrent requests: requests are modelled one at a time. `app.run` handles requests on separate threads by default and `cache` has no lock, so a `show_results` can store a tally it fetched before a vote that was confirmed meanwhile. Interleaved requests are not modelled, and `CoherentCacheServesLedger` and `DropResultCoherent` hold only for requests handled one after another.
- The receipt wait's timeout: the code passes none, so web3's default applies, after which `wait_for_transaction_receipt` raises. The `except` turns that into a 500 with its text; in the model this is `StepRaises(_, WaitReceipt, _)`, a `Failed` response. A transaction whose send or wait raised may still be mined later; the cache has no expiry and is never invalidated for it, so the coherence rows (`CoherentCacheServesLedger`, `EmptyCoherent`, `DropResultCoherent`) cover only mutations whose status-1 receipt this process saw.
- `private_key` being JSON `null`, which raises outside the `try` (lines 37 and 100): `privateKey` is a string.
- JSON fields of other types (a number as `poll_name`, a string as `poll_index`, and so on): each field is modelled as missing or of its intended type.
- KeyFormat.Lower: only ASCII letters are lower-cased. Python's Unicode case mapping, including the mappings that lengthen a string, is not modelled. No non-ASCII character lower-cases to a hex digit or to `x`, so this does not change which keys are accepted.
- The alignment the contract's replies are meant to have (`len(titles) == len(options)`, and one count per option): the code never checks it, and the cache stores whatever the ledger returns.
- Ledger changes in the middle of one request: a `Ledger` value gives one answer per read for the whole request. Different requests may see different `Ledger` values.
