# Model output and conversation state through the model API server

This project models the parts of the model API server and its client that model output and
multi-turn state pass through, and proves that they come through unchanged, or exactly when they do not:

* `cache_key`, `prefix_cache`, `prefix_cache_runs`, `prefix_cache_cuts`, `cold_answers`, `litertlm_slot`: the
  LiteRT-LM slot. Its pool of cached conversations is a state machine whose steps from many requests
  interleave freely; the slot itself is a class whose methods are proved to take those steps. The main theorem
  is transparency: with any mix of sessions, pins, expiries and evictions a request is answered as if nothing
  were cached, that is with the engine's reply to the conversation its own fields describe, and sends that
  signals cut short elsewhere do not change that. The pool bound and the safety of cancel handles are proved
  apart from it, for every run whatever is asked.
* `json`, `json_text`, `json_grammar`: JSON as RFC 8259 defines it (a lexer, the grammar, and a printer with its
  round trip). They stand in for the library parser: a text parses to a value if and only if it is a spelling of
  that value.
* `json_scan`, `escape_laws`, `quote_laws`, `structural_quotes`, `json_lenient`: the recovery of JSON that
  strict parsing rejects. Each byte scanner is a loop proved equal to a function, and the functions'
  laws follow: meanings kept, strict texts left alone, second passes that change nothing.
* `structural_patterns`, `structural_recovery`, `lenient_refusals`: the patterns of escaped structural quotes
  spelled out, what the recovery is for and where it stops. Objects of strings with any of their structural
  quotes escaped are recovered; several bare values are refused.
* `tool_format`, `drift`, `every_drift`, `tool_text`, `tool_reply`, `lenient_panics`: tool-call bodies and the
  marker scanner.
  The main theorem is drift recovery: for every object, whatever mixture of bare keys, `=` separators,
  leaked quote tokens, raw control characters and stray backslashes its text has suffered, parsing gives
  that object. `lenient_panics` says exactly which texts make recovery panic instead.
* `framed`, `wire`, `wire_history`, `stub_slot`: the framing codec, the composed client, pipes, handler, slot
  task and bounded channel as one state machine, and the stub slot at its end. The main theorems are request and
  response pairing, told from the calls made and what the slot did, in-order delivery with exact accounting of
  dropped events, and an unreachable branch.
* `turn_render`, `session`: the chat template with its reader, and position and logits bookkeeping over
  the KV cache.
* `texts`, `proto`: text search, trimming, options, and the wire types.

A text is the sequence of its UTF-8 bytes, each byte written as the character of the same value. The
recovery scanners rewrite bytes from 0x80 on (`out.push(b as char)`), so their laws are stated for ASCII;
`QuoteLaws.QuoteFixesStrict` shows that on strict JSON ASCII is exactly the condition. JSON objects are
maps kept in key order, and numbers are kept as their digits; the round trips are stated for numbers as
the library prints them.

The inference engine is a function from a conversation (system prompt, sampler, messages sent so far) to
the chunks it streams; it may also fail at any call. The hash is a function that does not collide on the
byte strings in use. Time is a counter that never goes back. Frames on the wire are atomic steps, which
the framing theorems justify.

Where comments and code differ, the model follows the code:

* `un_escape_structural_quotes` is said to be idempotent (gemma_utils/src/json_lenient.rs:326). It is so
  exactly when the text has no place where two backslashes and a quote come before a closing brace, or
  before a comma and the next key (`StructuralQuotes.SecondRewrite`); the four characters `\\"}` are a
  counterexample (`StructuralQuotes.RewriteTwiceDiffers`).
* `lenient_parse_object` is said to return `None` when it cannot recover. It panics
  (gemma_utils/src/json_lenient.rs:104) exactly when no stage parses and the text is `{`, a quote, `:`,
  anything and `}`, with white space between them (`LenientPanics.PanicsExactly`), and with it the extraction of
  tool calls (`LenientPanics.ExtractPanicsExactly`). Every body such as `{":x}` does so
  (`JsonLenient.LoneQuotePanics`, `LenientPanics.LoneQuoteCrashes`).
* Lenient parsing is said to refuse several bare values rather than guess
  (gemma_utils/src/json_lenient.rs:23-26). It does so for every first value of plain words
  (`LenientRefusals.SeveralRefused`), but a bracket that is not closed hides the comma, and the second
  member is swallowed into the first value (`LenientRefusals.SiblingSwallowed`).
* The rescue of structural quotes recovers every object of strings whose values hold no quotes,
  backslashes, controls, `{` or commas (`StructuralRecovery.EscapedQuotesRecovered`). With a comma in a value
  key quoting can corrupt the text first, so that `{\"a\":"b,c:d"}` is refused
  (`StructuralRecovery.CommaCorrupts`).
* Escaping strings is said to make them strict. A `\u` without a complete escape after it stays, so that
  `{"p":"C:\users"}` is refused: an escaped body decodes exactly when every `\u` in it is complete
  (`EscapeLaws.EscapedDecodesIff`, `LenientRefusals.IncompleteEscapeRefused`).
* The name added under `tool` is called redundant. It overwrites an argument of that name, which is then
  removed, so arguments come through whole if and only if none is named `tool`
  (`ToolText.ArgumentsSurvive`).
* The session pin is said to be pure performance, and the key bytes to be unambiguous. Transparency is
  proved for well-formed requests that end open, on slots whose requests do not mix a missing and an empty
  prompt (`PrefixCache.CacheIsTransparent`). It fails for the others named here; each has a lemma with an
  engine and a run for every request of a family. The cache changes an answer into an error when an Assistant
  turn comes after the last User or Tool turn (`PrefixCacheRuns.ClosedRequestBreaks`). A request is answered
  from another conversation with an empty prompt next to a missing one
  (`PrefixCacheRuns.EmptySystemPromptsMix`; not on a slot with a default prompt,
  `PrefixCacheRuns.PromptsAgreeIff`), with a NUL in a prompt (`PrefixCacheRuns.NulPromptsMix`), with a
  tool-call id on a turn that should have none (`PrefixCacheRuns.StrayIdsMix`), and with a content of 2^32 - 1
  bytes or more, whose length is clamped (`PrefixCacheRuns.LongContentsMix`).
* `cancel` of the client is said to return at once and to cancel the call in flight. It waits for the lock
  which that call holds, so while the slot works no cancel is sent or on its way (`Wire.CancelsWait`).
* `cancel_in_flight` is said to return false if nothing was streaming. When send loops overlap, the guard
  of the one that ends first clears the token of the other, and a signal is lost while that one streams
  (`PrefixCacheRuns.SignalIsLost`). Without overlap delivery is exact (`PrefixCache.CancelReachesTheSender`).
* `push_token` moves the position on even when the decode fails (`Session.Session.PushToken`), so
  positions stay in step exactly while decodes succeed. `prefill` leaves the chunks before a failing
  decode in the cache and the position where it was, so positions stay in step exactly when the first
  chunk is the one that fails (`Session.Session.Prefill`).

## Model

| member | source | states |
|---|---|---|
| CacheKey.FillCanonicalBytes | model_api_server/src/litertlm_slot.rs:266-312 | The loop that fills the buffer computes the key bytes: markers, system prompt, sampler bits, then each turn with length prefixes. |
| CacheKey.KeyLayout | model_api_server/src/litertlm_slot.rs:266-312 | The key bytes spelled out: `sys`, the prompt, `sampler`, top-p and temperature as four bytes each, lowest first, `turns`, then the turns, with the NUL separators in place. |
| CacheKey.TurnLayout | model_api_server/src/litertlm_slot.rs:291-310 | The bytes of a turn spelled out: role 0 to 3, the content after its four-byte size, and the id likewise when there is one; sizes from 2^32 on are written as 2^32 - 1. |
| CacheKey.EncodeTurnsConcat | model_api_server/src/litertlm_slot.rs:293-310 | The bytes of a turn list are those of its first part followed by those of the rest. |
| CacheKey.KeyBytesArePrefix | model_api_server/src/litertlm_slot.rs:266-324 | The key bytes of `turns[..n]` are a prefix of the key bytes of `turns`. |
| CacheKey.DecodeTurnsEncoded | model_api_server/src/litertlm_slot.rs:253-263 | A decoder recovers any turn list from its bytes, given a tool-call id exactly on Tool turns and lengths below 2^32. |
| CacheKey.KeyBytesInjective | model_api_server/src/litertlm_slot.rs:244-312 | Equal key bytes mean equal system prompt (missing and empty identified), sampler bits and turns, for well-formed prefixes with NUL-free system prompts. |
| CacheKey.NulInSystemPromptCollides | model_api_server/src/litertlm_slot.rs:249-252 | A prompt that goes on with a header and the lead of a User turn has the key bytes of the shorter prompt with a first turn that holds the rest, whatever turns follow, so cached prefixes too. |
| CacheKey.StrayToolCallIdCollides | model_api_server/src/litertlm_slot.rs:260-263 | Any turn with a one-byte NUL id it should not have encodes like that turn without it and an empty User turn. |
| CacheKey.LongContentCollides | model_api_server/src/litertlm_slot.rs:291-310 | A content of 2^32 - 1 bytes or more encodes like itself with the next turn inside it, because its length is clamped. |
| CacheKey.MergedTurnsCollide | model_api_server/src/litertlm_slot.rs:293-310 | A turn that encodes like two shares the key with them wherever they stand. |
| PrefixCache.ScanFindsLongest | model_api_server/src/litertlm_slot.rs:502-517 | If the entry of some prefix was used less than the TTL ago, the scan finds one, and none that is shorter. |
| PrefixCache.ChosenInTime | model_api_server/src/litertlm_slot.rs:479-517 | Whatever the lookup chooses, by pin or by scan, was used less than the TTL ago; when nothing was, it chooses nothing. |
| PrefixCache.HitMarksUse | model_api_server/src/litertlm_slot.rs:519-531 | A hit takes the conversation of an entry used less than the TTL ago, marks it as used now, and changes no other entry. |
| PrefixCache.OpenSuffixSends | model_api_server/src/litertlm_slot.rs:577-583 | If the request ends open, every suffix after an Assistant turn still has a message to send. |
| PrefixCache.HitIsOwnPrefix | model_api_server/src/litertlm_slot.rs:480-500 | A fresh entry under the key of the request's first n turns is the replay of exactly those turns, whichever conversation stored it. |
| PrefixCache.RecacheBound | model_api_server/src/litertlm_slot.rs:635-659 | Storing after the eviction keeps the pool within its bound; the new entry survives, all others but the victim stay as they were, and the victim was used no later than any survivor. |
| PrefixCache.StepKeeps | model_api_server/src/litertlm_slot.rs:472-664 | Every step of any admissible request, interleaved anyhow and with signals in between, keeps the invariant: each entry is the replay of the prefix its key hashes, has at least two turns, ends in an Assistant turn; the pool is within bound; the cancel token is live. |
| PrefixCache.HandlesAreLive | model_api_server/src/litertlm_slot.rs:383-391 | In every run, whatever is asked, whatever the hash does and whenever signals cut sends short: the pool never exceeds its size, a stored cancel handle belongs to a conversation in its send loop, and a signal that is delivered reaches one. |
| PrefixCache.EvictsLeastRecent | model_api_server/src/litertlm_slot.rs:637-659 | In every run each re-caching keeps the entry it makes and all others but the victim, and evicts nothing that was used later than a survivor. |
| PrefixCache.CancelReachesTheSender | model_api_server/src/litertlm_slot.rs:712-727 | In every run in which no two send loops overlap, `cancel_in_flight` delivers if and only if some conversation is streaming. |
| PrefixCache.CacheIsTransparent | model_api_server/src/litertlm_slot.rs:400-700 | In every interleaving every request that finishes answers and streams what an always-cold slot would, or reports an engine failure. `ColdAnswers.AnswersAreReplies` says what that answer is. |
| ColdAnswers.AnswersAreReplies | model_api_server/src/litertlm_slot.rs:400-700 | In every such run an answer is the engine's reply to a conversation with the request's system prompt or else the slot's, its top-p and temperature or else 0.95 and 0.8, and the messages of its own input; any other result is an engine failure or a refusal that the request calls for. |
| ColdAnswers.ColdAnswerIs | model_api_server/src/litertlm_slot.rs:213-240 | A cold slot replies on exactly that conversation, for a text just that text, and refuses a request exactly for audio, for no turns, or for turns with nothing to send, each with its own error. |
| ColdAnswers.PickedOnce | model_api_server/src/litertlm_slot.rs:347-355 | The messages of a turn list, given by the positions of its User and Tool turns in order, each once and none left out, are determined by it. |
| ColdAnswers.EndsOpenIff | model_api_server/src/litertlm_slot.rs:577-583 | A turn list ends open exactly when some User or Tool turn has only System turns after it. |
| ColdAnswers.AdmissibleIff | model_api_server/src/litertlm_slot.rs:244-312 | Which requests transparency covers on a hash without collisions, in terms of prompt, turns and the size of the answer. |
| PrefixCacheCuts.CutsStayLocal | model_api_server/src/litertlm_slot.rs:383-700 | Also in runs in which signals cut sends short: a request that was not cut itself, and none of whose prefixes is a cut request's turns and the reply it was left with, is answered as by an always-cold slot. |
| PrefixCache.HitsAreReplays | model_api_server/src/litertlm_slot.rs:472-583 | In every reachable state a hit, by pin or by scan, has at least two turns, is a replay of the request's own turns, and leaves something to send; so a hit at n = 0 and "nothing to send" after a hit do not occur. |
| PrefixCacheRuns.ClosedRequestBreaks | model_api_server/src/litertlm_slot.rs:578-583 | The condition of transparency is needed: for every request with an Assistant turn after its last User or Tool turn there are an engine and a run in which the warm slot fails and a cold one answers. |
| PrefixCacheRuns.EmptySystemPromptsMix | model_api_server/src/litertlm_slot.rs:284-287 | On a slot without a default prompt: for every open request whose prompt is missing or empty, with an Assistant turn after something to send, there are an engine and a run that ends with another answer than the cold one. |
| PrefixCacheRuns.PromptsAgreeIff | model_api_server/src/litertlm_slot.rs:418-423 | A slot never sees both a missing and an empty prompt, whatever is asked, if and only if it has a default prompt. |
| PrefixCacheRuns.NulPromptsMix | model_api_server/src/litertlm_slot.rs:249-252 | For every request whose prompt goes on with such bytes before an Assistant turn there are an engine and a run, on any slot, that ends with another answer than the cold one. |
| PrefixCacheRuns.MergedTurnsMix | model_api_server/src/litertlm_slot.rs:293-310 | The same for every request two of whose sendable turns encode like one, before an Assistant turn. |
| PrefixCacheRuns.StrayIdsMix | model_api_server/src/litertlm_slot.rs:260-263 | The same for every request with an empty User turn after a sendable turn without a tool-call id. |
| PrefixCacheRuns.LongContentsMix | model_api_server/src/litertlm_slot.rs:291-310 | The same for every request with a content whose length is clamped before another sendable turn. |
| PrefixCacheRuns.SignalIsLost | model_api_server/src/litertlm_slot.rs:383-391 | For any engine and any two requests with something to send there is a run after which one is streaming and `cancel_in_flight` finds no handle. |
| PrefixCacheRuns.ColdRun | model_api_server/src/litertlm_slot.rs:536-667 | On an empty pool a request that the engine answers runs to its end, answers cold and leaves its conversation stored and pinned. |
| PrefixCacheRuns.WarmContinuation | model_api_server/src/litertlm_slot.rs:477-500 | From any state in order: a follow-up of the same session within the TTL finds exactly the conversation just stored, and only the new turns are left to send. |
| PrefixCacheRuns.FollowUp | model_api_server/src/litertlm_slot.rs:477-531 | The follow-up of a cold request sends just the new messages on top of that conversation. |
| PrefixCacheRuns.LeastRecentExists | model_api_server/src/litertlm_slot.rs:641-645 | A non-empty pool has a least recently used entry. |
| LiteRtLm.LiteRtLmSlot.VerifyPin | model_api_server/src/litertlm_slot.rs:477-500 | The pin is taken exactly when it is cached, fresh, no longer than the request, and the hash of the request's turns verifies. |
| LiteRtLm.LiteRtLmSlot.ScanPrefixes | model_api_server/src/litertlm_slot.rs:502-517 | The downward loop finds what the scan of the state machine finds. |
| LiteRtLm.LiteRtLmSlot.LookupAndClone | model_api_server/src/litertlm_slot.rs:472-534 | Lookup is the machine's lookup step: the entry, used less than the TTL ago, is marked used now, the donor stays, the clone equals it. |
| LiteRtLm.LiteRtLmSlot.EvictFor | model_api_server/src/litertlm_slot.rs:637-651 | Evicts a least recently used entry exactly when the pool is full and the key is new. |
| LiteRtLm.LiteRtLmSlot.FilterSendable | model_api_server/src/litertlm_slot.rs:347-355 | The messages are the contents of the User and Tool turns, by position: in order, each once, none left out. |
| LiteRtLm.LiteRtLmSlot.SendAllMessages | model_api_server/src/litertlm_slot.rs:594-611 | The send loop is a run of send steps; only the last message's chunks are streamed. |
| LiteRtLm.LiteRtLmSlot.RecacheConversation | model_api_server/src/litertlm_slot.rs:623-660 | Storing under the key of the turns plus the reply is the machine's re-cache step. |
| LiteRtLm.LiteRtLmSlot.CancelInFlight | model_api_server/src/litertlm_slot.rs:383-391 | The call is the machine's signal step; it tells whether the token held a handle, and on a safe slot a delivered signal reaches a conversation in its send loop. |
| LiteRtLm.LiteRtLmSlot.RunStream | model_api_server/src/litertlm_slot.rs:400-700 | One whole request is a run of the machine; on a slot in order it keeps the invariant, and an answer is the engine's reply to the conversation that the request's own fields describe, an error an engine failure or a refusal it calls for. |
| JsonText.AcceptedShape | gemma_utils/src/json_lenient.rs:37-39 | What strict parsing accepts has a local shape: strings decode, words are scalars before a delimiter, colons follow keys that follow `{` or `,`. |
| JsonGrammar.FromStrIs | gemma_utils/src/json_lenient.rs:37-39 | A text parses to a value if and only if it writes a spelling of it with white space between the tokens and after them: objects in any key order, keys repeated or not, strings in any of their forms. |
| JsonGrammar.GrammarIs | gemma_utils/src/json_lenient.rs:37-39 | The same for tokens: they parse to a value exactly when they spell it. |
| JsonGrammar.NumberIs | gemma_utils/src/json_lenient.rs:37-39 | A word is a number exactly when it is a sign, an integer part without leading zeros, a fraction and an exponent, the last two optional. |
| JsonGrammar.ShortEscapes | gemma_utils/src/json_lenient.rs:408-449 | What each of the eight short escapes denotes. |
| JsonGrammar.UnicodeIs | gemma_utils/src/json_lenient.rs:408-449 | What a `\u` with four hex digits denotes, and which of them stand for nothing alone. |
| JsonGrammar.SurrogatesAre | gemma_utils/src/json_lenient.rs:408-449 | What two `\u` escapes that form a surrogate pair denote together. |
| JsonGrammar.Utf8Is | gemma_utils/src/json_lenient.rs:408-449 | The bytes of a code point: a lead byte that tells their number, continuation bytes, and the number they make up. |
| JsonGrammar.MapOfIs | gemma_utils/src/json_lenient.rs:37-39 | Of members with the same key the last one counts, and the map is in key order. |
| JsonGrammar.KeyLessIs | gemma_utils/src/json_lenient.rs:37-39 | Key order is that of the first character in which keys differ, a key before all that go on from it. |
| JsonGrammar.PrintedChars | model_api_server/src/tool_text.rs:95-96 | How each character of a string is printed. |
| JsonGrammar.FractionsArePrinted | model_api_server/src/tool_text.rs:95-96 | Every fraction of at most fifteen digits in the library's form is among the numbers of the round trips. |
| JsonText.LexWritten | gemma_utils/src/json_lenient.rs:37-39 | Lexing undoes writing tokens down, with any white space. |
| JsonText.ParsePrint | model_api_server/src/tool_text.rs:95-96 | Parsing what was printed gives the value back. |
| JsonText.IntegersArePrinted | model_api_server/src/tool_text.rs:95-96 | Every integer of 64 bits is among the numbers of the round trips. |
| Json.RemoveUndoesPut | model_api_server/src/tool_text.rs:92-94 | Removing a key that was added to a map without it gives the map back. |
| JsonText.RemovePut | model_api_server/src/tool_text.rs:85-94 | Removing a key that was put gives the map without it, whatever it held there before. |
| Json.LookupPut | gemma_utils/src/tool_format.rs:179-180 | A key that was put is found with its new value, also where it was there before; other keys are found as before. |
| JsonScan.QuoteBareKeysLoop | gemma_utils/src/json_lenient.rs:174-254 | The loop over bytes with its string state and lookahead computes `QuoteBareKeys`, whose keys `QuoteLaws.QuoteBareKey` and `QuoteLaws.OddRunNotQuoted` give by character ranges. |
| JsonScan.EscapeStringControlsLoop | gemma_utils/src/json_lenient.rs:400-458 | The loop computes `EscapeStringControls`. |
| JsonScan.HasTopLevelComma | gemma_utils/src/json_lenient.rs:141-164 | The loop computes `CommaFrom`. |
| JsonLenient.CommaMeaning | gemma_utils/src/json_lenient.rs:138-164 | A comma is found exactly when one lies outside strings where the brackets before it balance out. |
| EscapeLaws.EscapePreservesMeaning | gemma_utils/src/json_lenient.rs:408-449 | Strictly decoding an escaped string gives what leniently decoding the raw one gives, surrogate pairs included: a raw control denotes itself, and so does a backslash that begins no escape; a `\u` without a complete escape has no meaning before or after. |
| EscapeLaws.RawTextKept | gemma_utils/src/json_lenient.rs:408-449 | An ASCII text without quotes, none of whose backslashes begins an escape, is read as it stands, raw controls and stray backslashes included: escaped, it is a strict string for exactly that text. |
| EscapeLaws.EscapedDecodesIff | gemma_utils/src/json_lenient.rs:408-449 | An escaped string decodes if and only if every `\u` in it begins a complete escape: four hex digits, no lone surrogate. |
| EscapeLaws.EscapeKeepsBoundaries | gemma_utils/src/json_lenient.rs:400-458 | Strings keep their boundaries, an unclosed one included, and everything outside strings is unchanged. |
| EscapeLaws.EscapeKeepsStrings | gemma_utils/src/json_lenient.rs:387-399 | String by string in a whole text: no raw control remains and the meaning is kept. |
| EscapeLaws.EscapeLeavesNoControl | gemma_utils/src/json_lenient.rs:434-447 | No C0 control remains inside a string. |
| EscapeLaws.EscapeIdempotent | gemma_utils/src/json_lenient.rs:400-458 | A second pass changes nothing. |
| EscapeLaws.EscapeFixesStrict | gemma_utils/src/json_lenient.rs:397-399 | A strict ASCII text is left as it is. |
| QuoteLaws.QuoteIdempotent | gemma_utils/src/json_lenient.rs:174-254 | A second pass changes nothing. |
| QuoteLaws.QuoteFixesStrict | gemma_utils/src/json_lenient.rs:34-39 | A strict JSON text is left as it is if and only if it is ASCII. |
| QuoteLaws.QuoteOnlyEditsKeys | gemma_utils/src/json_lenient.rs:166-173 | The output differs from the input only at identifiers that stand in key position before a separator: they gain quotes, and `=` becomes `:`; strings are untouched. |
| QuoteLaws.QuoteBareKey | gemma_utils/src/json_lenient.rs:214-245 | A bare key, by ranges a letter or `_` and then letters, digits or `_`, with any white space after it and either separator, is quoted. |
| QuoteLaws.OddRunNotQuoted | gemma_utils/src/json_lenient.rs:217-249 | Any other word in key position, with another first or later character, is copied, whatever comes after it. |
| QuoteLaws.QuoteBareWord | gemma_utils/src/json_lenient.rs:224-249 | An identifier that no separator follows is copied. |
| StructuralQuotes.NoOverlap | gemma_utils/src/json_lenient.rs:270-313 | Matches of one pattern never cut into each other, so collecting left to right misses nothing. |
| StructuralPatterns.KvPairIs | gemma_utils/src/json_lenient.rs:270-281 | The first pattern spelled out: it matches exactly a `{` or `,`, a key of at most 31 letters, digits, `_`, `.` and `-`, the first a letter or `_`, between quotes, a colon and a quote, each quote escaped or not, with any white space between them. |
| StructuralPatterns.CloseThenKeyIs | gemma_utils/src/json_lenient.rs:288-299 | The second: exactly a quote, a comma, and the next key between quotes with its colon. |
| StructuralPatterns.LastCloseIs | gemma_utils/src/json_lenient.rs:309-312 | The third: exactly an escaped quote, white space and a closing brace. |
| StructuralQuotes.CollectAll | gemma_utils/src/json_lenient.rs:354-362 | Going through all matches of a pattern collects exactly the escaped quotes inside some match. |
| StructuralQuotes.Splice | gemma_utils/src/json_lenient.rs:370-379 | The splice removes exactly the collected backslashes; positions never overlap, so the defensive skip is dead. |
| StructuralQuotes.UnEscape | gemma_utils/src/json_lenient.rs:327-385 | The whole function computes `UnEscapeStructuralQuotes`; the final comparison with the input never finds them equal. |
| StructuralQuotes.CollectedEscapes | gemma_utils/src/json_lenient.rs:345-352 | Every removed character is a backslash directly before a quote. |
| StructuralQuotes.CollectedStandByDelimiters | gemma_utils/src/json_lenient.rs:62-74 | Only quotes next to a delimiter are rewritten; escaped quotes inside content stay. |
| StructuralQuotes.SecondRewrite | gemma_utils/src/json_lenient.rs:315-327 | A second application finds nothing if and only if nowhere in the text two backslashes and a quote come before a closing brace, or before a comma and a key with its colon. |
| StructuralQuotes.RewriteIdempotent | gemma_utils/src/json_lenient.rs:325-326 | Without two adjacent backslashes a second application finds nothing. |
| StructuralQuotes.RewriteTwiceDiffers | gemma_utils/src/json_lenient.rs:325-326 | A concrete input that is rewritten again. |
| StructuralRecovery.EscapedQuotesRecovered | gemma_utils/src/json_lenient.rs:55-89 | Of every object of strings, whichever of its structural quotes are written escaped and however it is spaced with blanks, lenient parsing gives that object, unless the text is JSON as it stands; values hold no quotes, backslashes, controls, `{` or commas. |
| StructuralRecovery.CommaCorrupts | gemma_utils/src/json_lenient.rs:174-254 | With its key escaped, every value that goes on with an identifier and a colon after a comma is taken for a further key, and the text is refused. |
| JsonLenient.Recover | gemma_utils/src/json_lenient.rs:34-136 | The stages over the loops compute `LenientParseObject`. |
| JsonLenient.StrictStays | gemma_utils/src/json_lenient.rs:34-39 | Lenient parsing extends strict parsing. |
| JsonLenient.BareValueRecovered | gemma_utils/src/json_lenient.rs:95-136 | One bare key with unquoted words as its value, with either separator and any spacing: the words become the value. |
| LenientRefusals.SeveralRefused | gemma_utils/src/json_lenient.rs:23-26 | A first key with words for its value, a comma, and anything at all after it: refused. |
| LenientRefusals.NoValueRefused | gemma_utils/src/json_lenient.rs:105-109 | A bare key with either separator and nothing but white space for its value is refused. |
| LenientRefusals.SiblingSwallowed | gemma_utils/src/json_lenient.rs:116-135 | When the first value opens a bracket and does not close it, the second member becomes part of the first value. |
| LenientRefusals.IncompleteEscapeRefused | gemma_utils/src/json_lenient.rs:121-132 | A single string value without quotes in it, not ending in a backslash, one of whose `\u` is incomplete: refused. |
| LenientRefusals.RawKeyKept | gemma_utils/src/json_lenient.rs:98-126 | A key one of whose `\u` is incomplete keeps a word that is a JSON value as that value, under the raw text of the key. |
| LenientPanics.PanicsExactly | gemma_utils/src/json_lenient.rs:98-104 | On ASCII the slice is out of range if and only if no stage parses and the raw text is `{`, a quote, `:`, anything, `}`, but for white space between them: quoting keys neither makes nor hides that shape. |
| JsonLenient.LoneQuotePanics | gemma_utils/src/json_lenient.rs:98-104 | Every ASCII body that opens with `{":` and holds no other quote panics. |
| LenientPanics.CrashExactly | gemma_utils/src/tool_format.rs:144-181 | The parser of one body panics exactly when its text from the first brace on, with leaked quotes put back, has that shape and no stage parses. |
| LenientPanics.ExtractPanicsExactly | model_api_server/src/tool_text.rs:71-105 | Extraction from a whole reply panics exactly when one of its bodies is such a one. |
| LenientPanics.LoneQuoteCrashes | model_api_server/src/tool_text.rs:71-105 | A reply whose first body is a call of any name with arguments that open with `{":` and hold no other quote makes extraction panic, whatever follows. |
| EveryDrift.DriftRecovery | gemma_utils/src/tool_format.rs:137-182 | For every object and every drift of its text, whatever keys of letters, digits and `_` are bare, whichever of them take `=`, whichever quotes leaked and however strings are written as long as they denote the same: the body gives the name and that object. |
| Drifted.SameAsStrict | gemma_utils/src/tool_format.rs:137-182 | A drifted body and its strict rendering parse to the same call. |
| EveryDrift.PrintDrifts | gemma_utils/src/tool_format.rs:153-181 | The printed text of an object is itself one of its drifts. |
| JsonText.ParseAlike | gemma_utils/src/tool_format.rs:164-167 | Texts whose strings denote the same parse to the same value, however the strings are written. |
| Drifted.ReplaceDrift | gemma_utils/src/tool_format.rs:145-151 | Putting leaked quotes back never touches string contents, whatever they hold. |
| Drifted.QuoteDrift | gemma_utils/src/json_lenient.rs:174-254 | On every drifted rendering quoting bare keys gives the rendering with its keys quoted. |
| Drifted.EscapeKeyed | gemma_utils/src/json_lenient.rs:400-458 | Escaping then gives the strict rendering. |
| Drifted.ArgsRecovered | gemma_utils/src/tool_format.rs:164-167 | Strict or lenient, the arguments parse to the value of the strict rendering. |
| Drifted.StrictBodyParses | gemma_utils/src/tool_format.rs:153-181 | A body with strict arguments gives its name and them, with the name added. |
| Drifted.BareNameParses | gemma_utils/src/tool_format.rs:170-178 | A body without a brace, with or without `call:`, is a call without arguments if and only if it consists of letters, digits and `_`; an empty body is no call. |
| Drifted.NamelessIsNoCall | gemma_utils/src/tool_format.rs:176-181 | Arguments without a name before them and without leaked quotes are no call, whatever they are, unless parsing them panics. |
| Drifted.SpacesDoNotMatter | gemma_utils/src/tool_format.rs:144-164 | White space around the body, after `call:` and before the arguments changes nothing. |
| ToolText.Extract | model_api_server/src/tool_text.rs:71-105 | The marker loop computes `ExtractToolCalls`. |
| ToolText.BodiesBecomeCalls | model_api_server/src/tool_text.rs:83-101 | The calls are, in order, one for each body that parses to a call, with its name, its arguments without `tool`, and the next id; every other body leaves no trace. |
| ToolReply.ReplyIsCall | model_api_server/src/tool_text.rs:71-105 | One reply letter by letter: prose, the open marker, `call:` and a name, a bare key with `=` and a value between leaked quote tokens, the close marker and prose is the call `tc-0` of that name with that one argument. |
| ToolText.ScanCovers | model_api_server/src/tool_text.rs:77-82 | On any text the bodies are disjoint and in order, prose holds no open marker, bodies hold no close marker, and no complete pair is left over. |
| ToolText.BodiesOfWeave | model_api_server/src/tool_text.rs:77-82 | Prose without the open marker and bodies without the close marker scan back exactly. |
| ToolText.ExtractUndoesPrint | model_api_server/src/tool_text.rs:71-105 | From prose and printed calls with any arguments those calls come back, in order, numbered from zero, each without an argument named `tool`. |
| ToolText.ExtractUndoesDrift | model_api_server/src/tool_text.rs:71-105 | The same for all calls whose bodies drifted, each in its own way. |
| ToolText.ArgumentsSurvive | model_api_server/src/tool_text.rs:85-96 | The arguments that come back are those that went out if and only if none is named `tool`. |
| ToolText.IdsContiguous | model_api_server/src/tool_text.rs:97-99 | On any text ids count up from `tc-0` without gaps. |
| ToolText.IdsDistinct | model_api_server/src/tool_text.rs:97-99 | Different positions have different ids. |
| ToolText.PrependToolResults | model_api_server/src/tool_text.rs:48-62 | The loop writes each wrapped result on its own line, then the text. |
| ToolText.PrependedText | model_api_server/src/tool_text.rs:48-62 | The text of one result, letter by letter. |
| ToolText.ResultsReadBack | model_api_server/src/tool_text.rs:48-62 | Results without the closing marker and the text can be told apart again. |
| Framed.DecodeEncoded | model_api_client/src/framed.rs:22-53 | Decoding what was encoded gives the message and the length of its frame, whatever bytes follow. |
| Framed.WriteFrame | model_api_client/src/sync.rs:246-251 | Writing succeeds if and only if the message serializes to at most 64 MiB and then appends four length bytes and the payload; otherwise it leaves the stream as it was, with `TooLong` of the size above that and `EncodeFailed` exactly when serializing fails. |
| Framed.EncodeIs | model_api_client/src/framed.rs:22-34 | Which messages have a frame, the frame byte by byte, and the error of every other. |
| Framed.BadFramesRefused | model_api_server/src/framed.rs:33-46 | Both readers on the first frame of any bytes: a length above 64 MiB is refused at once, a frame that is not there yet awaited or reported cut off, and a payload that does not parse refused. |
| Framed.ChunksDoNotMatter | model_api_client/src/framed.rs:40-53 | On any bytes, valid or not, repeated decoding gives the same messages, leftover and error however the bytes are cut into reads. |
| Framed.DecodedExactly | model_api_server/src/framed.rs:33-46 | From the frames of any messages that fit and the beginning of one more, exactly those messages are decoded and exactly that beginning is left over. |
| Framed.ReadNext | model_api_client/src/sync.rs:257-284 | Filling header and payload buffers reads one frame: end of file only before a header, an error on truncation. |
| Framed.ReaderAgrees | model_api_client/src/framed.rs:80-112 | On any bytes the blocking reader gives what repeated decoding gives, and ends cleanly exactly when nothing is left over. |
| Framed.ReadFrames | model_api_client/src/framed.rs:73-79 | The frames of any messages that fit are read back one by one; the end is clean exactly at a frame boundary. |
| Wire.StepKeeps | model_api_server/src/lib.rs:107-315 | Every step of client, handler, slot and channel keeps the invariant of the connection. |
| WireHistory.RepliesArePaired | model_api_client/src/sync.rs:131-187 | In every run, with cancels in between, told from its steps: the i-th call that gets a reply gets what the slot returned the i-th time, and if it streamed, its callback got events that the slot pushed for that return, in order, and all of them if they were at most 64. |
| WireHistory.SlotRunsRequests | model_api_client/src/sync.rs:162-173 | The i-th request that the slot runs is that of the i-th call, in input, session and tools; its flags are both set if the call streams and the caller's own otherwise. |
| Wire.FreeLockMeansEmptyPipe | model_api_client/src/sync.rs:66-77 | No frame waits for the client whenever the lock is free; only cancels wait for the server. |
| Wire.CancelsWait | model_api_client/src/sync.rs:189-208 | In every run, while the slot works on a request no cancel can be sent and none is on its way to the server. |
| Wire.ConnectsIffVersionsAgree | model_api_client/src/sync.rs:84-122 | The handshake always has a step to take until it ends, and it ends in a refusal exactly when the versions differ, with a message that names both. |
| Wire.ChannelNeverClosesEarly | model_api_server/src/lib.rs:227-258 | The branch for a channel that closes before the final response is unreachable. |
| Wire.SinkIffAsked | model_api_server/src/lib.rs:156-176 | While the slot works on a request it can push events exactly when the request asked for chunks or progress. |
| Wire.FramesAreConserved | model_api_server/src/lib.rs:180-288 | For every request served: frames are the pushed events without the dropped ones, in order; frames and drops add up to pushes; an event is dropped exactly when 64 are queued. |
| Wire.NothingLostInBetween | model_api_server/src/lib.rs:215-273 | At every moment of a request, frames written and events queued are the events kept so far. |
| Wire.DrainEnds | model_api_server/src/lib.rs:214-273 | Once the slot has returned, the handler always has a step, each step brings it closer to the reply, and no step of another party moves it or the outcome. |
| Wire.DrainBound | model_api_server/src/lib.rs:214-273 | Over any run from the slot's return up to the reply, whatever the client does meanwhile, the outcome stays and the handler takes fewer steps than twice the queued events plus four. |
| Wire.AwaitReply | model_api_client/src/sync.rs:137-152 | The read loop returns the first terminal frame, with the events before it if it streams. |
| Wire.LoopIsReadSteps | model_api_client/src/sync.rs:175-187 | The client's read steps in the state machine do what the loop does. |
| StubSlot.EmitChunks | model_api_server/src/slot.rs:149-161 | The loop over characters pushes the chunks of the text. |
| StubSlot.RunStream | model_api_server/src/slot.rs:125-166 | The slot pushes its events in order and returns the echo. |
| StubSlot.SynthEchoIs | model_api_server/src/slot.rs:168-200 | The echo is of the text, or of the User turn after which no other comes, or of a marker when there is none; with the session of the request and a call of its first tool. |
| StubSlot.StubEventsAre | model_api_server/src/slot.rs:125-166 | The events one by one: two announcements, the text cut into pieces of a third of its characters, at least one each, of which only the last says `stop`, and the count of characters. |
| StubSlot.StubStreams | model_api_server/src/slot.rs:131-165 | The chunks spell the text, there are one to four of them among at most seven events, and exactly the last carries a finish reason. |
| StubSlot.StreamedReplies | model_api_client/src/sync.rs:162-187 | In every interleaving with the stub, told from the calls made: the i-th call that gets a reply gets the echo of its own input, session and tools; if it streamed, its callback got all events for that echo, none dropped, whose texts put together are the text of the reply. |
| TurnRender.RenderTurns | model_api_server/src/turn_render.rs:27-62 | The loop renders the turns; when no content holds the end marker, the rendering read back shows a non-empty prompt first, unless the turns open with one, and then the turns. |
| TurnRender.SystemPromptOnce | model_api_server/src/turn_render.rs:36-44 | A system prompt is never put in front of turns that open with one, and an empty one never at all. |
| TurnRender.ReadFormatted | gemma_utils/src/chat_format.rs:56-61 | A reader recovers the turns, Tool as User, from every rendering whose contents hold no end marker. |
| TurnRender.RendersApart | model_api_server/src/turn_render.rs:27-62 | Equal renderings of any two inputs without end markers in their contents show equal turns, and equal prompts when both put one in front; when only one does, the other opens with that prompt as its first turn. |
| TurnRender.TemplateText | model_api_server/src/turn_render.rs:27-62 | The text of a prompt, a question, an answer and a tool result, letter by letter. |
| TurnRender.EndMarkerConfuses | gemma_utils/src/chat_format.rs:58 | With the end marker in a content one turn renders like two. |
| Session.Session.ClearKv | chitin_llama/src/session.rs:241-244 | Empties the cache and starts at position 0. |
| Session.Session.Prefill | chitin_llama/src/session.rs:329-365 | Appends the prompt at the running position in the batches described, or changes nothing, or stops at the first chunk whose decode fails with exactly the chunks before it in the cache; then positions stay in step exactly when that chunk is the first. |
| Session.BatchesCover | chitin_llama/src/session.rs:346-361 | No batch is empty or exceeds the capacity, rows are the tokens at consecutive positions, and only the very last asks for logits. |
| Session.Session.PushToken | chitin_llama/src/session.rs:381-390 | Appends one token with its logits; positions stay in step exactly when the decode succeeds. |
| Session.Session.GenerateRaw | chitin_llama/src/session.rs:417-432 | Every step samples a row with logits; what is produced is greedy generation from the cache and the prompt, cut short only by a failing decode. |
| Session.GenerateIs | chitin_llama/src/session.rs:417-432 | Each generated token is what sampling gives after all before it, and generation stops only where sampling or the count does. |
| Session.Perform | chitin_llama/src/session.rs:241-390 | Over any run of clear, prefill and push whose decodes succeed, the cache holds exactly the replayed tokens at positions 0 to n - 1, each once and in order. |

## Left out

- PrefixCache.CacheIsTransparent: leaves runs in which a signal cuts a send short to `PrefixCacheCuts.CutsStayLocal`, which says nothing about the cut request itself or those that continue it; a failing engine call is reported as a failure, not compared with a cold run. It asks for text inputs or turn lists that end open, a hash without collisions on the byte strings in use, well-formed prefixes, and not both a missing and an empty system prompt on one slot.
- Wire.ConnectsIffVersionsAgree: says nothing about fairness; a connection whose steps are never scheduled stays in the handshake.
- Wire.DrainEnds: does not bound the slot's own run time; a slot that never returns keeps the handler polling.
- JsonText.ParsePrint: asks of numbers that they are integers of 64 bits or fractions of at most fifteen digits without an exponent, because the library prints others in another form or with other digits; so do the round trips of tool calls.
- JsonLenient.LenientParseObject: has no i32 wrap-around of the bracket depth in the comma search, which needs a text of two gigabytes.
- LiteRtLm.LiteRtLmSlot.RunStream: runs one request at a time on the class; interleavings are proved on the state machine that the class refines.
- The drain loop of the connection handler is modelled as steps of the state machine, not as a method, because the slot runs beside it.
- White space beyond ASCII in `trim` and in the regular expressions, and names with letters beyond ASCII.
- The scanners on bytes from 0x80 on, beyond the exact ASCII condition for strict texts.
- The 128-level nesting limit of the JSON library, and the values of numbers: a number is kept as its digits.
- Error message wording, except where it reaches the wire.
- i32 limits of positions in the session; saving and loading sequences; speculative decoding.
- The 64-chunk channel inside the LiteRT-LM slot (its sender blocks, so it loses nothing), the final stop chunk, `SUBAGENT_PROMPT` logging, and the visual token budget, a constant of the engine.
- Dropping a client without `shutdown`; IO errors on a healthy socket; several connections sharing one slot.
- The llama and subprocess slots, the Node binding, the asynchronous client, the other tool formats and chat formats: thin wrappers or simpler variants.
