# Serverless demos: verified cores

Four of the Cloudflare Worker demos in this repository hold an algorithm or a protocol that is easy to get
wrong. This project restates those cores in Dafny and proves what their code and documentation promise.

**Streaming redaction and SSE pass-through** (`demos/byok-playground`). `JsStrings`, `Placeholder`, `Redaction`,
`Utf8`, `SseSplit`, `SsePassThrough`, `SseClient`. A key is replaced by `[redacted]` in a text that arrives in
chunks. `Redaction.StreamingEqualsBatch` says for which keys the chunked form equals the one-shot form on every
text and every cutting of it, and `Redaction.OutputHidesKey` for which keys the output never holds the key: both
are equivalences, with a condition on the key alone. `Redaction.PlainKeysAreSafe` shows that a key without
brackets that is no part of the word `redacted` meets both. `SsePassThrough.ForwardsWhatItPromised` says what a
client has received at every moment of every stream, and `SsePassThrough.AcceptedKeysForward` that this holds
for every key the Worker accepts; `SsePassThrough.ClientNeverSeesKey` says for which keys no client ever sees
the key. `Utf8` works on UTF-16 code units, lone surrogates included.

**Addresses and network keys** (`demos/byok-playground`, `demos/apollo-desk`). `Digits`, `Ipv4`, `Ipv6`,
`NetworkKeys`, `AddressTexts`. Two Workers parse IPv6 texts with independent code (text forms 1 and 2 of section
2.2 of RFC 4291). `Ipv6.ParsersAgree` compares them on every string, and `NetworkKeys` proves what the /64 keys
identify.

**Actor lab** (`demos/actor-lab`). `WriteThrough`, `Windows`, `ChatRoom`, `Mailbox`, `Race`, `RaceSystem`,
`RaceMailbox`, `RaceSteps`. State written through to a table, sliding-window limits that survive eviction, a
mailbox made of promises, and the counter race. `RaceSystem` is a transition system: its actions are the
synchronous blocks of `arm` and `step`, and its runs are all interleavings of both modes, with stale steps,
failing waits, lost isolates and expiry. It keeps the mailbox as a queue; `RaceMailbox` is the same race over
the chain of promises, and `RaceMailbox.ChainRefinesQueue` proves that its every run is a run over the queue.

**Budgets and gates** (`demos/apollo-desk`, `demos/ask-the-hub`). `Meter`, `Desk`, `DeskSteps`, `Transcript`,
`AskCap`, `AskCapSteps`. The shared AI budget, the busy lock of a desk with its Yes/No requests, the tool loop
of a turn, and token uses with daily caps; each as any number of callers over one object whose methods are
atomic.

Objects whose methods update fields are classes. Their methods are proved against specification functions, and
the theorems are about those functions over whole runs (`Legal` and `After` in the transition systems).

The theorems say what never goes wrong. Beside them stands, for every operation, what it does when nothing is
wrong, with the source's own constants and texts and without the functions of the model: which address a text
gets, which request an answer takes, which token lets in, what the client reads.

Where the code and its own comments disagree, the code is modelled:

- `createExactRedactor` says that it holds back enough for a key cut by chunks, and `redactExact` that it
  replaces the key. Both hold except for keys that overlap the placeholder: after `[redacted]` was put in, it
  can spell the key again together with the text behind it. `Redaction.BracketKeyFails` does so with the key
  `]abcd`, which the Worker accepts: the redaction of `]abcdabcd` is `[redacted]abcd`, which holds the key, and
  streaming the same text in two chunks gives something else again.
- `trimUtf8` says that it trims without splitting a code point. It does, but the text that it cuts comes back
  through a decoder, which turns a lone surrogate into U+FFFD and drops a leading U+FEFF;
  `Utf8.TrimIsLongestPrefix` has the exact condition and `Utf8.TrimExceptions` both inputs.

Three results have a condition that is easy to miss:

- `SsePassThrough.BrokenKeyLeaks` is about `cappedBody` as a function. The Worker only calls it with a key from
  `readApiKey`, which refuses line breaks, so the comment on `cappedBody`, that a key cannot straddle the events
  it forwards, is right for every key that can get there.
- A request can be told to the desk as expired twice only if the library lets the expiry callback run while
  `cancelSchedule` is awaited. That library is not part of this model, so both are proved: `Desk.ToldTwiceIff`
  says exactly when it happens, and `Desk.ClosesOnce` that without such a callback every request closes at most
  once.
- An error frame is an event of its own unless an event was open without an unfinished line, as after `data: x`
  and one line feed: no separator is sent then, and the client reads the frame as part of that event
  (`SseClient.FailedStreamEndsWithFrame`, `SseClient.FrameJoinsOpenEvent`).

## Model

| member | source | states |
|---|---|---|
| JsStrings.SplitJoinReplaces | demos/byok-playground/src/shared/text.ts:40 | splitting at a key and joining with a placeholder replaces exactly the leftmost non-overlapping occurrences |
| JsStrings.TrimTrims | demos/byok-playground/src/shared/text.ts:38 | `trim` leaves no white space at either end, and leaves a trimmed text alone |
| JsStrings.TrimDropsSpace | demos/byok-playground/src/shared/text.ts:38 | `trim` drops white space in front and at the end, and nothing else |
| JsStrings.SpacesAre | demos/byok-playground/src/shared/text.ts:38 | exactly the 25 white space characters and line terminators of the language, one by one |
| Placeholder.HoldBack | demos/byok-playground/src/shared/text.ts:50-63 | for a streamable key, redacting a prefix, keeping all but the last \|key\| - 1 characters back and redacting those again with the rest is redacting the whole |
| Placeholder.WrongCut | demos/byok-playground/src/shared/text.ts:50-63 | every other key has a text and a cut for which that fails |
| Placeholder.NeverRegrows | demos/byok-playground/src/shared/text.ts:35-43 | a key that no placement of the placeholder can complete occurs nowhere in any redacted text |
| Placeholder.RegrownHoldsKey | demos/byok-playground/src/shared/text.ts:35-43 | every other key has a text whose redaction holds the key |
| Redaction.RedactExact | demos/byok-playground/src/shared/text.ts:35-43 | the loop over the secrets computes `Redacted`; secrets shorter than 4 characters are skipped |
| Redaction.Hold | demos/byok-playground/src/shared/text.ts:47 | the carry is as long as the longest trimmed secret less one character, and no longer |
| Redaction.ExactRedactor.constructor | demos/byok-playground/src/shared/text.ts:46-48 | a new redactor carries nothing |
| Redaction.ExactRedactor.Push | demos/byok-playground/src/shared/text.ts:50-63 | what one push emits and carries over, for a middle and for a last chunk |
| Redaction.ExactRedactor.Flush | demos/byok-playground/src/shared/text.ts:64-68 | flushing redacts the carry and empties it |
| Redaction.RunRedactor | demos/byok-playground/src/shared/text.ts:46-70 | pushing chunks through one object and flushing it sends out `Streamed` |
| Redaction.StreamingEqualsBatch | demos/byok-playground/src/shared/text.ts:45-70 | streaming equals batch redaction for all texts and all cuttings if and only if the key is shorter than 4 or disagrees with every placement of `[redacted]` that overlaps it and ends before it does |
| Redaction.StreamsWrongly | demos/byok-playground/src/shared/text.ts:45-70 | any other key has chunks that stream to something else than their batch redaction |
| Redaction.LastPushIsPushThenFlush | demos/byok-playground/src/shared/text.ts:50-68 | a push marked last sends at once what the unmarked push and a flush would send |
| Redaction.FourCharactersAreRedacted | demos/byok-playground/src/shared/text.ts:39-40 | a key of 4 characters or more is replaced by `[redacted]`, a shorter one leaves the text alone |
| Redaction.SecretsInOrder | demos/byok-playground/src/shared/text.ts:37-41 | several secrets are replaced one after the other, in their order |
| Redaction.PushSendsAllButTail | demos/byok-playground/src/shared/text.ts:51-62 | a push sends all that it has redacted but the last characters, one fewer than the key has |
| Redaction.OutputHidesKey | demos/byok-playground/src/shared/text.ts:34-43 | no redacted text holds the key if and only if the key disagrees with every overlapping placement of `[redacted]` before which the key does not already occur |
| Redaction.AcceptedKey | demos/byok-playground/src/worker/proxy.ts:11-17 | a key that `readApiKey` accepts is printable ASCII and already trimmed |
| Redaction.AcceptedIff | demos/byok-playground/src/worker/proxy.ts:11-17 | exactly the texts that trim to 1 to 8192 printable ASCII characters are accepted |
| Redaction.BracketKeyFails | demos/byok-playground/src/shared/text.ts:34-70 | the accepted key `]abcd` is neither streamable nor safe from regrowing, with the text and the chunks that show both |
| Redaction.PlainKeysAreSafe | demos/byok-playground/src/shared/text.ts:34-70 | a key without `[` and `]` that is no part of `redacted` meets both conditions |
| Utf8.TrimUtf8 | demos/byok-playground/src/shared/text.ts:26-32 | on any code units, the backward loop over the bytes ends at the last code-point boundary within the limit |
| Utf8.DecodeEncoded | demos/byok-playground/src/shared/text.ts:27-31 | decoding what was encoded (section 3 of RFC 3629) gives the code points back, with U+FFFD for every lone surrogate, before the byte order mark rule |
| Utf8.EncodedForm | demos/byok-playground/src/shared/text.ts:27 | the table of section 3 of RFC 3629: the length by range, the markers, and that the payload bits are the number |
| Utf8.SurrogateIsReplaced | demos/byok-playground/src/shared/text.ts:27 | a lone surrogate is encoded as U+FFFD |
| Utf8.FitCountIsLongest | demos/byok-playground/src/shared/text.ts:25-32 | a prefix fits the limit if and only if it has at most `FitCount` code points |
| Utf8.UnitsOfPoints | demos/byok-playground/src/shared/text.ts:27 | splitting a string into code points loses nothing, lone surrogates included |
| Utf8.KeptIsLongest | demos/byok-playground/src/shared/text.ts:25-32 | the kept code points are the one longest prefix of the string that splits no surrogate pair and fits |
| Utf8.TrimIsLongestPrefix | demos/byok-playground/src/shared/text.ts:25-32 | the result is that longest prefix if and only if it is not so that the string is cut and its kept part holds a lone surrogate, or it begins with U+FEFF and the limit is 3 or more |
| Utf8.TrimExceptions | demos/byok-playground/src/shared/text.ts:31 | both exceptions occur |
| Utf8.TrimmedFits | demos/byok-playground/src/shared/text.ts:25-32 | the result always fits the limit |
| Utf8.DropOldestUntilFits | demos/byok-playground/src/shared/text.ts:14-23 | the result is the longest suffix of the messages whose body fits, or the last message alone when none does |
| SseSplit.SplitSseEvents | demos/byok-playground/src/worker/stream.ts:48-68 | the loop computes `EventsOf` |
| SseSplit.EventEndIsFirst | demos/byok-playground/src/worker/stream.ts:52-62 | the two searches together find the end of the first separator, `\n\n` or `\r\n\r\n` |
| SseSplit.SplittingIsIncremental | demos/byok-playground/src/worker/stream.ts:48-68 | splitting `a`, then its rest followed by `b`, gives the events and the rest of `a + b` |
| SseSplit.EventsPartitionBuffer | demos/byok-playground/src/worker/stream.ts:48-68 | events and rest rebuild the buffer; each event holds its only separator at its end, the rest holds none |
| SseSplit.SplitCompleteSseLines | demos/byok-playground/src/worker/stream.ts:71-91 | the loop computes `LinesOf` |
| SseSplit.LineEndIsFirst | demos/byok-playground/src/worker/stream.ts:75-86 | the two searches together find the end of the first line: LF, CRLF, or a CR that no LF follows |
| SseSplit.PiecesAreLines | demos/byok-playground/src/worker/stream.ts:71-91 | so every piece is exactly one line, and no CRLF is cut |
| SseSplit.LinesPartitionBuffer | demos/byok-playground/src/worker/stream.ts:71-91 | lines and rest rebuild the buffer; each piece ends with CR or LF, the rest holds neither |
| SsePassThrough.CappedBody.constructor | demos/byok-playground/src/worker/proxy.ts:94-106 | a new body has seen, carried and sent nothing |
| SsePassThrough.CappedBody.FlushCompleteEvents | demos/byok-playground/src/worker/proxy.ts:110-118 | sends the redacted complete events of the carry and keeps its rest |
| SsePassThrough.CappedBody.StopWith | demos/byok-playground/src/worker/proxy.ts:120-143 | flushes, then sends a blank separator if a line is unfinished, then one error frame |
| SsePassThrough.CappedBody.StopClean | demos/byok-playground/src/worker/proxy.ts:129-143 | flushes, then sends what is still carried |
| SsePassThrough.CappedBody.EmitEvents | demos/byok-playground/src/worker/proxy.ts:153-175 | sends the redacted events and complete lines of the buffer and, at the end, its rest |
| SsePassThrough.CappedBody.Pull | demos/byok-playground/src/worker/proxy.ts:186-222 | one pull performs the steps of the reads it consumes, and returns only with new text, at the end, or when no read is left |
| SsePassThrough.RedactAtLineEnd | demos/byok-playground/src/worker/proxy.ts:89-93 | redaction distributes over a line end when the key has no line break inside |
| SsePassThrough.LooseSendsLines | demos/byok-playground/src/worker/proxy.ts:153-165 | the events and loose lines of a buffer are together its redacted finished lines |
| SsePassThrough.ForwardsWhatItPromised | demos/byok-playground/src/worker/proxy.ts:94-228 | whatever the chunks: while open the redacted finished lines, after a clean end the redacted whole text, after a failure the redacted finished lines, at most one blank separator and exactly one error frame |
| SsePassThrough.CleanEndIsBatch | demos/byok-playground/src/worker/proxy.ts:206-211 | every clean end forwards the batch redaction of the whole text if and only if the key is shorter than 4 or has no line break inside |
| SsePassThrough.AcceptedKeyFitsLines | demos/byok-playground/src/worker/proxy.ts:11-17 | a key that the Worker accepts has no line break |
| SsePassThrough.AcceptedKeysForward | demos/byok-playground/src/worker/proxy.ts:298-303 | for every key that the Worker accepts and every stream the client receives what was promised |
| SsePassThrough.ClientNeverSeesKey | demos/byok-playground/src/worker/proxy.ts:89-228 | for a key of at least 4 characters without line breaks, no stream ever shows the key to the client if and only if the key cannot regrow around a placeholder and no error frame spells it |
| SsePassThrough.FrameSpellsKey | demos/byok-playground/src/worker/proxy.ts:120-127 | every error frame spells the printable key `message` |
| SsePassThrough.BrokenKeyLeaks | demos/byok-playground/src/worker/proxy.ts:153-175 | the function forwards a key with a line break inside unredacted; the Worker accepts no such key |
| SseClient.FailingStreamSendsFrame | demos/byok-playground/src/worker/stream.ts:166-176 | a stream that fails at its first read sends the literal text of its error frame, with any key |
| SseClient.ClientReceives | demos/byok-playground/src/worker/proxy.ts:186-222 | after chunks within the byte limit: what the client has when more may come, when the stream ends, when it fails, and when a chunk passes the limit |
| SseClient.NothingAfterEnd | demos/byok-playground/src/worker/proxy.ts:187-188 | after its end a stream sends nothing more |
| SseClient.FailedStreamEndsWithFrame | demos/byok-playground/src/worker/proxy.ts:120-127 | every failed stream splits into complete events only; the last one ends with the literal frame, and is the frame alone if and only if no event was open before it |
| SseClient.UnfinishedLineIsClosed | demos/byok-playground/src/worker/proxy.ts:123 | after an unfinished line the separator closes the open event: at most one line feed stands before the frame in its event |
| SseClient.FrameJoinsOpenEvent | demos/byok-playground/src/worker/proxy.ts:120-127 | a stream in which an event is open without an unfinished line: the client reads the frame as part of that event |
| Digits.TextRoundTrip | demos/byok-playground/src/worker/budget.ts:15 | printing a number in a base and parsing it gives it back, in lower-case digits without a leading zero |
| Digits.ValueRoundTrip | demos/apollo-desk/src/worker/gates.ts:53-58 | a lower-case digit string without superfluous zeros is the text of its value |
| Digits.DigitsAre | demos/byok-playground/src/worker/budget.ts:15 | the sixteen digits and their values, in both cases |
| Digits.ValueByPlace | demos/byok-playground/src/worker/ssrf.ts:30-32 | the value of a text is the sum of its digits by place |
| Ipv4.ParseIPv4 | demos/byok-playground/src/worker/ssrf.ts:39-63 | the loops compute `Ipv4Of`: 1 to 4 parts, all but the last single bytes, the last filling the bytes left over |
| Ipv4.Ipv4InRange | demos/byok-playground/src/worker/ssrf.ts:61-62 | every accepted text stands for a number below 2^32, so the final range test refuses nothing |
| Ipv4.PartsAreSafe | demos/byok-playground/src/worker/ssrf.ts:28-34 | no part of at most 12 characters is too large for a double, so that test refuses nothing |
| Ipv4.Ipv4RoundTrip | demos/byok-playground/src/worker/ssrf.ts:38-67 | parsing the printed form of any number below 2^32 gives it back |
| Ipv4.DottedInjective | demos/byok-playground/src/worker/ssrf.ts:65-67 | different addresses print differently |
| AddressTexts.PartTexts | demos/byok-playground/src/worker/ssrf.ts:27-36 | a number below 2^32 is read from its decimal, octal (`0`) and hexadecimal (`0x`, `0X`) text |
| AddressTexts.NinesAreDecimal | demos/byok-playground/src/worker/ssrf.ts:31-32 | a part with a leading zero and a digit 8 or 9 is decimal |
| AddressTexts.OtherPartsFail | demos/byok-playground/src/worker/ssrf.ts:28-33 | every other part is refused |
| AddressTexts.Ipv4Forms | demos/byok-playground/src/worker/ssrf.ts:38-63 | the number of texts with one, two, three and four parts, and exactly when each is refused |
| AddressTexts.PartsText | demos/byok-playground/src/worker/ssrf.ts:40-49 | the same with one dot after the last part |
| AddressTexts.OtherIpv4TextsFail | demos/byok-playground/src/worker/ssrf.ts:41-48 | more than four parts, a part that is no number, and the empty text are refused |
| Ipv6.ParseGroups | demos/byok-playground/src/worker/ssrf.ts:107-128 | the loop over the groups computes `Hextets` |
| Ipv6.ParseIPv6 | demos/byok-playground/src/worker/ssrf.ts:91-134 | the method computes `Ipv6Of`, with or without a dotted tail |
| Ipv6.FoldUp | demos/byok-playground/src/worker/ssrf.ts:131-133 | shifting and adding computes the number whose base-65536 digits are the groups |
| Ipv6.HextetOfFold | demos/byok-playground/src/worker/ssrf.ts:131-133 | the digits of that number are the groups again |
| Ipv6.CanonicalText | demos/apollo-desk/src/worker/gates.ts:53-58 | lower-casing and stripping zeros gives the hexadecimal text of the group's value |
| AddressTexts.Ipv6Forms | demos/byok-playground/src/worker/ssrf.ts:107-133 | eight groups are the base-65536 digits of the address; with `::`, zeros take the place of the missing ones |
| AddressTexts.DottedForm | demos/byok-playground/src/worker/ssrf.ts:98-105 | six groups before a dotted address are the upper 96 bits, the dotted address is the lower 32 |
| AddressTexts.FilledDottedForm | demos/byok-playground/src/worker/ssrf.ts:98-121 | the same with `::` among the groups |
| AddressTexts.DottedAfterDoubleColonFails | demos/byok-playground/src/worker/ssrf.ts:99-105 | a dotted address directly after `::` is refused |
| AddressTexts.DressingDoesNotMatter | demos/byok-playground/src/worker/ssrf.ts:92-95 | brackets and a zone do not change the address |
| AddressTexts.CaseDoesNotMatter | demos/byok-playground/src/worker/ssrf.ts:92 | nor does the case of the letters |
| Ipv6.ParsersAgree | demos/apollo-desk/src/worker/gates.ts:40-59 | on every string, `expandIpv6` accepts if and only if `parseIPv6` does and there is neither a dot nor a line terminator between brackets; its result is the eight hextets of the parsed number |
| NetworkKeys.PrefixGroups | demos/byok-playground/src/worker/budget.ts:13-17 | the loop prints the top hextets and `::` |
| NetworkKeys.PrefixRoundTrip | demos/byok-playground/src/worker/budget.ts:28 | parsing a printed /64 gives the /64 back |
| NetworkKeys.Ipv6InRange | demos/byok-playground/src/worker/ssrf.ts:130-133 | every accepted text stands for a number below 2^128 |
| NetworkKeys.Ipv6TextKey | demos/byok-playground/src/worker/budget.ts:23-28 | no IPv6 text is taken for an IPv4 address first |
| NetworkKeys.KeyIsIdempotent | demos/byok-playground/src/worker/budget.ts:20-29 | the key of a key is that key, for every string |
| NetworkKeys.SameKeyIffSameSubnet | demos/byok-playground/src/worker/budget.ts:19-29 | two IPv6 texts that are not mapped share a key if and only if their top 64 bits agree |
| NetworkKeys.MappedKeyIsIpv4Key | demos/byok-playground/src/worker/budget.ts:27 | a mapped address has the key of the IPv4 address it carries |
| NetworkKeys.KeyFormsAreApart | demos/byok-playground/src/worker/budget.ts:20-29 | IPv4 keys, IPv6 keys and `local` never collide |
| AddressTexts.KeyOfText | demos/byok-playground/src/worker/budget.ts:20-29 | the key of an IPv4 text is its dotted form, and of a text that is no address `local` |
| AddressTexts.KeyOfGroups | demos/byok-playground/src/worker/budget.ts:13-28 | the key of eight groups: the hexadecimal texts of the first four, then `::` |
| AddressTexts.MappedText | demos/byok-playground/src/worker/budget.ts:27 | `::ffff:` before a dotted address: the number, and the key of the IPv4 address from both Workers |
| AddressTexts.DeskKeyOfOthers | demos/apollo-desk/src/worker/gates.ts:61-70 | the desk keeps a text without colons and brackets as it is, and calls the empty text `local` |
| AddressTexts.BracketsGo | demos/apollo-desk/src/worker/gates.ts:62-63 | the desk drops brackets around any text in which no line terminator stands |
| AddressTexts.QuadKey | demos/apollo-desk/src/worker/gates.ts:64-68 | after `::ffff:` in any case, four parts of one to three digits are the key, whatever their size; any other text with a dot is its own key |
| NetworkKeys.WorkersAgreeOnNetwork | demos/apollo-desk/src/worker/gates.ts:62-70 | for an IPv6 text that both parsers accept and that is not mapped, the BYOK key is the desk's key followed by `::` |
| WriteThrough.Actor.constructor | demos/actor-lab/src/worker/actor.ts:14-24 | a new isolate reads its state from the table that is there |
| WriteThrough.Actor.EnsureStorage | demos/actor-lab/src/worker/actor.ts:76-81 | creates the table once and keeps its rows |
| WriteThrough.Actor.Set | demos/actor-lab/src/worker/actor.ts:118-131 | an assignment changes memory and its row together |
| WriteThrough.Actor.Hydrate | demos/actor-lab/src/worker/actor.ts:92-112 | every field is its row when that parses, else its initial value |
| WriteThrough.Actor.ReloadState | demos/actor-lab/src/worker/actor.ts:55-58 | memory becomes what the table says, the table stays |
| WriteThrough.Actor.ExpireNow | demos/actor-lab/src/worker/actor.ts:67-71 | table and memory are as in a new actor |
| WriteThrough.TableHoldsState | demos/actor-lab/src/worker/actor.ts:92-133 | after any run, every field, assigned or not, is what a fresh isolate would read |
| WriteThrough.ReloadChangesNothing | demos/actor-lab/src/worker/actor.ts:54-58 | a reload at any point of any run changes no field of the state |
| WriteThrough.ReloadIsIdentity | demos/actor-lab/src/worker/actor.ts:54-58 | when only fields of the state are assigned, a reload gives back the same memory |
| WriteThrough.FieldsHoldLastValue | demos/actor-lab/src/worker/actor.ts:92-133 | after any run every field holds the value assigned last, or the initial one after an expiry, or the one that was loaded |
| WriteThrough.LoadedFields | demos/actor-lab/src/worker/actor.ts:92-112 | loading takes every cell that parses, and the initial value elsewhere |
| Windows.CappedListIsRecent | demos/actor-lab/src/shared/guards.ts:41-53 | the stored list is the recent part of all admitted moments |
| Windows.SayWindow | demos/actor-lab/src/shared/guards.ts:41-46 | with a clock that does not go back, no half-open minute holds more than 30 admitted says |
| Windows.ScratchWindow | demos/actor-lab/src/shared/guards.ts:48-53 | nor any ten seconds more than 12 admitted scratch frames of a socket |
| Windows.FrameWindow | demos/actor-lab/src/shared/guards.ts:35-39 | nor any ten seconds more than 60 accepted frames of a socket, although refused frames stay on the list |
| Windows.SayAdmittedIff | demos/actor-lab/src/shared/guards.ts:41-46 | a say is admitted if and only if fewer than 30 were in the 60 seconds that end with it |
| Windows.ScratchAdmittedIff | demos/actor-lab/src/shared/guards.ts:48-53 | a scratch frame if and only if fewer than 12 were in the 10 seconds that end with it |
| Windows.FrameAcceptedIff | demos/actor-lab/src/shared/guards.ts:35-39 | a frame if and only if fewer than 60 came, accepted or not, in the 10 seconds that end with it |
| ChatRoom.Room.constructor | demos/actor-lab/src/worker/actor.ts:14-24 | a room reads its fields from the table that an earlier isolate left, if any |
| ChatRoom.Room.AllowSay | demos/actor-lab/src/worker/chat.ts:313-317 | admission uses the stored list and writes the new one through |
| ChatRoom.Room.Evict | demos/actor-lab/src/worker/chat.ts:138-150 | an eviction is a reload of the persisted fields |
| ChatRoom.EvictionKeepsTheLimit | demos/actor-lab/src/worker/chat.ts:138-150 | with any evictions and other writes in between, the list is that of an undisturbed run |
| ChatRoom.SayWindowSurvivesEviction | demos/actor-lab/src/worker/chat.ts:313-317 | so no minute holds more than 30 admitted says, however often the room is evicted |
| Mailbox.MailboxActor.constructor | demos/actor-lab/src/worker/actor.ts:12 | the first tail is a resolved promise |
| Mailbox.MailboxActor.Enqueue | demos/actor-lab/src/worker/actor.ts:45-51 | a call waits for the tail it found and leaves its own promise as the tail |
| Mailbox.MailboxActor.Run | demos/actor-lab/src/worker/actor.ts:51 | a task starts if and only if the promise it waits for is resolved |
| Mailbox.MailboxActor.Release | demos/actor-lab/src/worker/actor.ts:51 | ending a task resolves its promise |
| Mailbox.OneAtATimeInOrder | demos/actor-lab/src/worker/actor.ts:40-52 | in every run a task starts only after every earlier one has ended |
| Mailbox.OldestCanMove | demos/actor-lab/src/worker/actor.ts:40-52 | the oldest task that has not ended is running or can start |
| Mailbox.JobsAreCalls | demos/actor-lab/src/worker/actor.ts:45-52 | there is a job for every call, started at most once and ended at most once, as its phase says |
| Race.RaceActor.constructor | demos/actor-lab/src/worker/race.ts:71-77 | the initial state |
| Race.RaceActor.Arm | demos/actor-lab/src/worker/race.ts:108-124 | arming resets the counter, the admission set, the budget, the log and the time of the last touch |
| Race.RaceActor.Record | demos/actor-lab/src/worker/race.ts:196-206 | appends one event, with what answered its wait, and changes nothing else |
| Race.RaceActor.Begin | demos/actor-lab/src/worker/race.ts:155-173 | which step is refused and why; an accepted step takes a wait and records its read |
| Race.RaceActor.Finish | demos/actor-lab/src/worker/race.ts:177-186 | a stale step changes nothing, any other writes its observed value plus one |
| Race.RaceActor.Result | demos/actor-lab/src/worker/race.ts:132-153 | the report on the armed run, with what answered its waits, or none for another run id |
| Race.Overlaps | demos/actor-lab/src/worker/race.ts:26-44 | the loops find whether two waits of the log cross |
| Race.CounterBounds | demos/actor-lab/src/worker/race.ts:155-187 | the last written value lies between 0 and the number of writes, and is at least 1 after a write |
| Race.WritesAreRacers | demos/actor-lab/src/worker/race.ts:156-182 | every write is another racer's, and every writer has a read |
| Race.NothingLostIff | demos/actor-lab/src/worker/race.ts:171-182 | the counter equals the number of writes if and only if no write falls between another racer's read and write |
| Race.ReadsOrWritesInside | demos/actor-lab/src/worker/race.ts:171-182 | which is the case if and only if no writer's read falls there |
| Race.SerialWritesCount | demos/actor-lab/src/worker/race.ts:126-130 | in a serial log the written values are 1, 2, 3, … |
| Race.SerialSpansInOrder | demos/actor-lab/src/worker/race.ts:26-35 | in a serial log with a clock that does not go back, each wait ends before the next begins |
| Race.SerialDoesNotOverlap | demos/actor-lab/src/worker/race.ts:26-44 | so `overlaps` is false |
| Race.OverlapsIffWaitsCross | demos/actor-lab/src/worker/race.ts:26-44 | `overlaps` is true if and only if two different racers waited at once: the start of each wait is earlier than the end of the other |
| RaceSystem.BudgetNeverRefuses | demos/actor-lab/src/worker/race.ts:156-169 | in every state of the invariant a racer that did not read finds a wait left |
| RaceSystem.DoKeepsInv | demos/actor-lab/src/worker/race.ts:108-187 | every action of the system keeps the invariant |
| RaceSystem.AlwaysInv | demos/actor-lab/src/worker/race.ts:108-187 | so it holds in every reachable state |
| RaceSystem.SerializedRunIsSafe | demos/actor-lab/src/worker/race.ts:126-187 | in every interleaving, a serialized run's counter is its number of writes, the written values count up in log order, no step of it waits outside the mailbox, and `overlaps` is false |
| RaceSystem.CounterMeetsLog | demos/actor-lab/src/worker/race.ts:155-187 | in either mode, the bounds of the counter, and equality with the number of writes if and only if no writer's read falls into another writer's window |
| RaceSystem.LostAddsUp | demos/actor-lab/src/worker/race.ts:132-153 | the counter never passes the run's size; `lost` is the racers that never wrote plus the overwritten writes, and only the former in a serialized run |
| RaceSystem.StaleStepIsHarmless | demos/actor-lab/src/worker/race.ts:177 | a step left waiting from an earlier run never changes the armed run |
| RaceSystem.AdmissionByPigeonhole | demos/actor-lab/src/worker/race.ts:156-172 | waits left plus racers that read is the run's size, also after a lost isolate; no step is refused for want of a wait and no racer is accepted twice |
| RaceSystem.OverlapsTellsTheTruth | demos/actor-lab/src/worker/race.ts:138 | so in every interleaving the report says whether waits crossed |
| RaceSteps.AcceptedIffMayRun | demos/actor-lab/src/worker/race.ts:155-167 | in every reachable state a step is accepted if and only if its racer belongs to the armed run and did not read yet, and which refusal it gets otherwise |
| RaceSteps.ChecksInOrder | demos/actor-lab/src/worker/race.ts:155-167 | on any state, which of the four checks refuses a step, in their order |
| RaceSteps.StepBeginsOrQueues | demos/actor-lab/src/worker/race.ts:126-173 | an accepted step of an interleaved run reads, waits and takes one wait at once; a step of a serialized run joins the mailbox |
| RaceSteps.NextTaskRuns | demos/actor-lab/src/worker/race.ts:108-173 | what the oldest task of the mailbox does when its turn comes |
| RaceSteps.AnswerEndsStep | demos/actor-lab/src/worker/race.ts:176-186 | a step whose model answered writes what it read plus one, with its two events, unless its run is over |
| RaceSteps.LimitedStepWaitsOrLeaves | demos/actor-lab/src/worker/race.ts:174-176 | the rate limiter and a failing model leave no trace |
| RaceSteps.OneStepCounts | demos/actor-lab/src/worker/race.ts:155-187 | one undisturbed step raises the counter by one |
| RaceSteps.SourceTellsWhoAnswered | demos/actor-lab/src/worker/race.ts:46-52 | when the await source is none, one of the two sources, or mixed |
| RaceSteps.ReportIsOfArmedRun | demos/actor-lab/src/worker/race.ts:140-150 | the report repeats the armed run; `lost` is the size less the counter, not below zero |
| RaceMailbox.ChainRefinesQueue | demos/actor-lab/src/worker/actor.ts:45-52 | every run of the race over the chain of promises is a run of `RaceSystem`, with the running call held and the waiting calls queued |
| RaceMailbox.OneStepInFlight | demos/actor-lab/src/worker/race.ts:126-130 | of the steps that went through the mailbox at most one is under way |
| RaceMailbox.SerializedRunIsSafe | demos/actor-lab/src/worker/race.ts:126-187 | over the chain, in every interleaving: a serialized run's counter is its number of writes, these count up in log order, at most one of its steps is in flight, and `overlaps` is false |
| Meter.MeterActor.constructor | demos/apollo-desk/src/worker/meter.ts:33-41 | a new day has no spend |
| Meter.MeterActor.Reserve | demos/apollo-desk/src/worker/meter.ts:50-64 | which limit refuses a reservation; a refusal changes nothing, an acceptance charges both counters |
| Meter.MeterActor.Settle | demos/apollo-desk/src/worker/meter.ts:67-77 | both counters are corrected by the difference, cut off at zero |
| Meter.MeterActor.Metered | demos/apollo-desk/src/worker/meter.ts:95-108 | undisturbed, a call that is not refused is charged with its real cost, and with nothing when it throws |
| Meter.SpentIsConserved | demos/apollo-desk/src/worker/meter.ts:50-108 | in every interleaving the spend is the settled costs plus the outstanding reservations, and a network's spend is that sum over its calls |
| Meter.ClampNeverFires | demos/apollo-desk/src/worker/meter.ts:71-75 | no settlement meets its cut-off at zero |
| Meter.OverspendIsOverrun | demos/apollo-desk/src/worker/meter.ts:50-77 | the spend passes the budget, and a network 15 percent of it, by no more than calls cost above their reservations |
| Meter.WithinBudget | demos/apollo-desk/src/worker/meter.ts:50-77 | when no call costs more than it reserved, both limits hold |
| Meter.NetworksAddUp | demos/apollo-desk/src/worker/meter.ts:56-62 | when every accepted call names a network, the networks' counters add up to the spend |
| Meter.SettlesOnce | demos/apollo-desk/src/worker/meter.ts:99-107 | a call that threw has settled exactly once, with nothing; a call that returned exactly once, with its run's cost; any other call not at all |
| Meter.ReserveDecides | demos/apollo-desk/src/worker/meter.ts:50-64 | a reservation is accepted if and only if the budget and 15 percent of it for the caller's network leave room, and then both counters grow by it |
| Meter.RefusalNamesLimit | demos/apollo-desk/src/worker/meter.ts:55-59 | a refusal names the budget first, then the network's share |
| Meter.SettleReplaces | demos/apollo-desk/src/worker/meter.ts:67-77 | in every reachable state a settlement replaces the reservation by the real cost in both counters |
| Meter.RunDecidesSettle | demos/apollo-desk/src/worker/meter.ts:99-106 | the end of a run moves no money and decides which settle call follows |
| Desk.DeskActor.constructor | demos/apollo-desk/src/worker/apollo.ts:139-149 | a new desk is idle |
| Desk.DeskActor.Release | demos/apollo-desk/src/worker/apollo.ts:152-155 | frees the desk and hands out every waiter |
| Desk.DeskActor.WhenIdle | demos/apollo-desk/src/worker/apollo.ts:158-160 | a caller joins the waiters if and only if the desk is busy |
| Desk.DeskActor.StartTurn | demos/apollo-desk/src/worker/apollo.ts:403-405 | a turn takes the desk if and only if it is idle |
| Desk.DeskActor.TakeAnswer | demos/apollo-desk/src/worker/apollo.ts:694-698 | an answer takes the newest request that has not expired, deletes its row and makes the desk busy |
| Desk.DeskActor.ExpireConfirm | demos/apollo-desk/src/worker/apollo.ts:720-723 | deletes the named row, and tells whether there was one |
| Desk.DoKeepsInv | demos/apollo-desk/src/worker/apollo.ts:367-755 | every synchronous block keeps the invariant of lock, requests and history |
| Desk.AlwaysInv | demos/apollo-desk/src/worker/apollo.ts:367-755 | so it holds in every reachable state |
| Desk.LockIsExclusive | demos/apollo-desk/src/worker/apollo.ts:152-160 | at most one turn, answer or reminder holds the desk, it is busy if and only if one does, and whoever sleeps is on the list that the holder's release wakes |
| Desk.ReleaseWakesAll | demos/apollo-desk/src/worker/apollo.ts:152-155 | after a release nobody is asleep and nobody holds the desk |
| Desk.OneRequest | demos/apollo-desk/src/worker/apollo.ts:559-571 | at most one request is stored, and it is unanswered and not closed |
| Desk.HandlerRunsOnce | demos/apollo-desk/src/worker/apollo.ts:686-707 | a stored call runs at most once, as it was stored, and only after a Yes that came no later than its expiry |
| Desk.ClosesOneWay | demos/apollo-desk/src/worker/apollo.ts:686-725 | no request closes as accepted and declined, nor as either and expired; the expiry is told at most twice |
| Desk.ClearingTells | demos/apollo-desk/src/worker/apollo.ts:563-567 | a tool that replaces a request tells its expiry for the first time if the row is still there, and for the second time if not |
| Desk.ToldTwiceIff | demos/apollo-desk/src/worker/apollo.ts:563-567 | over any run, an expiry is told twice if and only if some tool came back from `cancelSchedule` and found the row gone |
| Desk.ClosesOnce | demos/apollo-desk/src/worker/apollo.ts:563-567 | if no callback runs while the cancellation of its schedule is awaited, every request closes at most once |
| Desk.ExpiredTwice | demos/apollo-desk/src/worker/apollo.ts:563-567 | a run in which one does and the expiry is told twice |
| Desk.HandlerOutsideTurns | demos/apollo-desk/src/worker/apollo.ts:686-717 | while an answer closes its request or its handler is under way, no turn is |
| DeskSteps.PressAnswers | demos/apollo-desk/src/worker/apollo.ts:686-698 | on an idle desk a Yes or No takes the request up to its last millisecond, too late it changes nothing; on a busy desk it waits and is on the wake list |
| DeskSteps.WokenAnswers | demos/apollo-desk/src/worker/apollo.ts:691-698 | an answer that waited does the same once the desk is idle |
| DeskSteps.AnswerCloses | demos/apollo-desk/src/worker/apollo.ts:699-707 | a Yes closes its request as accepted and runs its call for the first time; a No only closes it |
| DeskSteps.YesRunsTheCall | demos/apollo-desk/src/worker/apollo.ts:686-707 | from an idle desk with a request in time, a Yes gets to the handler |
| DeskSteps.AskDrawsRequest | demos/apollo-desk/src/worker/apollo.ts:560-563 | an unsafe call draws a request that expires 30 seconds later |
| DeskSteps.RequestIsStored | demos/apollo-desk/src/worker/apollo.ts:563-570 | the old request is told and gone, then the new one is the one on the desk |
| DeskSteps.TurnOrReminderTakesDesk | demos/apollo-desk/src/worker/apollo.ts:403-405 | a turn or a reminder takes an idle desk; on a busy one the turn is refused and the reminder waits |
| DeskSteps.FinishFreesDesk | demos/apollo-desk/src/worker/apollo.ts:152-155 | the end of a process frees the desk, wakes everyone and leaves the request |
| DeskSteps.HandlerForgetsRequests | demos/apollo-desk/src/worker/apollo.ts:802-819 | the handler takes every request off the desk |
| DeskSteps.ExpiryTakesRequest | demos/apollo-desk/src/worker/apollo.ts:720-725 | an expiry takes its own request off the desk and tells so once; any other id does nothing |
| DeskSteps.LostIsolateKeepsRequest | demos/apollo-desk/src/worker/apollo.ts:139-149 | a lost isolate drops every process and waiter and keeps the stored request |
| DeskSteps.NewestExpiresLast | demos/apollo-desk/src/worker/apollo.ts:680-684 | an answer looks at the row that expires last |
| Transcript.RunTurn | demos/apollo-desk/src/worker/apollo.ts:434-491 | the round loop computes `Rounds` |
| Transcript.RunCalls | demos/apollo-desk/src/worker/apollo.ts:476-484 | the two loops compute `Replies`: the first four calls run, the others are turned down |
| Transcript.RepliesInOrder | demos/apollo-desk/src/worker/apollo.ts:476-484 | a round with k calls yields k replies with the same ids in the same order, and runs at most four tools |
| Transcript.RepliesAre | demos/apollo-desk/src/worker/apollo.ts:476-484 | the content of every reply: the tool's result cut at 4000 characters, or the literal reason; which calls run, and when the round throws |
| Transcript.RoundGoesOn | demos/apollo-desk/src/worker/apollo.ts:437-485 | a round with calls appends them with all replies and asks again |
| Transcript.RoundEnds | demos/apollo-desk/src/worker/apollo.ts:452-497 | how a turn ends: in the model's text or `Done.`, in the fourth round whatever the model calls, aborted, or thrown |
| Transcript.RoundsKeep | demos/apollo-desk/src/worker/apollo.ts:437-486 | from any round on: well-formed prompts, and the numbers of model calls and tool runs left |
| Transcript.TurnIsWellFormed | demos/apollo-desk/src/worker/apollo.ts:434-491 | every prompt pairs calls and replies one to one and in order; at most 4 model calls and 12 tool runs; a reply is the model's last output, so the loop never ends without one |
| AskCap.AskCapActor.constructor | demos/ask-the-hub/src/worker/cap.ts:41-49 | empty tables |
| AskCap.AskCapActor.Claim | demos/ask-the-hub/src/worker/cap.ts:52-65 | a claim succeeds if and only if the count is below the cap, and then adds one |
| AskCap.AskCapActor.Refund | demos/ask-the-hub/src/worker/cap.ts:68-78 | a refund takes one off, never below zero |
| AskCap.AskCapActor.RememberToken | demos/ask-the-hub/src/worker/cap.ts:87-97 | inserts an unknown token only, and drops expired rows |
| AskCap.AskCapActor.TakeToken | demos/ask-the-hub/src/worker/cap.ts:100-112 | spends one use of a live token, and tells an absent from a spent one |
| AskCap.DoKeepsTokens | demos/ask-the-hub/src/worker/api.ts:110-125 | every step of every request keeps the token invariant |
| AskCap.DoKeepsSlots | demos/ask-the-hub/src/worker/api.ts:170-202 | every step of every request keeps the count equal to the slots held |
| AskCap.UsesAreAdmissions | demos/ask-the-hub/src/worker/cap.ts:80-112 | a row lets in at most two requests, and while it lives its `uses` is their number |
| AskCap.InsideMeansAdmitted | demos/ask-the-hub/src/worker/api.ts:110-125 | some row let a request in if and only if it is past `admit` and is not a local check with the dummy token |
| AskCap.AdmissionsAreInTime | demos/ask-the-hub/src/worker/cap.ts:80-97 | every admission falls into the two minutes before its row's expiry, and two rows of one token have two minutes that do not meet |
| AskCap.CountIsSlotsHeld | demos/ask-the-hub/src/worker/api.ts:170-202 | the stored count is the successful claims that were not given back, and never passes the cap |
| AskCap.RefundFindsItsSlot | demos/ask-the-hub/src/worker/cap.ts:67-78 | a refund never meets its guard at zero |
| AskCapSteps.TakeDecides | demos/ask-the-hub/src/worker/cap.ts:100-112 | a live token with a use left lets in and counts, any other row turns away, an unknown token goes on to siteverify |
| AskCapSteps.VerdictDecides | demos/ask-the-hub/src/worker/api.ts:119-120 | a token that siteverify accepts goes on, any other is turned away |
| AskCapSteps.RememberStores | demos/ask-the-hub/src/worker/cap.ts:87-97 | an unknown token is stored with one use and two minutes, expired rows go, the others stay |
| AskCapSteps.FreshTokenGetsIn | demos/ask-the-hub/src/worker/api.ts:110-122 | a fresh token without a rival gets its request in |
| AskCapSteps.SecondUseIsLast | demos/ask-the-hub/src/worker/cap.ts:100-112 | the second use lets in and the third does not |
| AskCapSteps.ClaimTakesSlot | demos/ask-the-hub/src/worker/cap.ts:52-65 | a slot is given exactly while fewer than 200 questions or 1000 searches were claimed |
| AskCapSteps.FailedSearchGivesSlotBack | demos/ask-the-hub/src/worker/api.ts:176-201 | a failed search gives its slot back unless the refund fails, one that works keeps it |
| AskCapSteps.RefundStopsAtZero | demos/ask-the-hub/src/worker/cap.ts:68-78 | on any counts, a refund takes one off, and nothing from an empty count |

## Left out

- Characters: in redaction and event splitting a character stands for a UTF-16 code unit (no proof depends on the alphabet).
- Utf8.DecodeEncoded: malformed bytes decode to one U+FFFD each, which is coarser than `TextDecoder`; no theorem is about malformed bytes.
- Redaction.StreamingEqualsBatch: one secret, as everywhere in the demo; lists of several secrets are modelled by the methods, and no theorem is about streaming them.
- SsePassThrough.CappedBody.Pull: SSE mode with exact redaction only; `cancel`, the non-SSE mode and the pattern redaction of `redact` are not modelled; reads, decoding, clocks and timeouts are the script of reads; the text enqueued is recorded, not how it was cut into pieces.
- SseSplit.LinesPartitionBuffer: nothing about cutting the input, because a CR and an LF cut apart become two lines.
- Ipv6.ParsersAgree: `toLowerCase` is modelled on ASCII; no other character lowers to a hexadecimal digit or a separator. Form 3 of section 2.2 of RFC 4291 is not claimed: a dotted tail directly after `::` is rejected, as in the code.
- NetworkKeys.WorkersAgreeOnNetwork: says nothing about texts that only one of the two Workers reads as IPv6.
- WriteThrough.TableHoldsState: needs that the assigned values survive `JSON.stringify` and `JSON.parse`; the timing of the expiry alarm is not modelled.
- WriteThrough.Actor.constructor: the base class only, whose `afterLoad` does nothing; what subclasses normalise after loading is not modelled.
- WriteThrough.Actor.ReloadState: the base class only, as for the constructor.
- WriteThrough.Actor.EnsureStorage: the base class only, whose `migrate` creates no further tables.
- ChatRoom.Room.constructor: the normalisation of fields after loading is not modelled; the fields have their types here.
- ChatRoom.Room.Evict: the scratch text, the memory label, the mailbox and the broadcast around the reload are not modelled.
- ChatRoom.SayWindowSurvivesEviction: the expiry of a whole room, which drops the list, is not part of the run; nor are the session and IP limits around a say.
- Race.RaceActor.Arm: the alarm is not modelled.
- Race.RaceActor.Result: the summary text is not modelled.
- RaceSystem.AlwaysInv: run ids are fresh, as `randomUUID` makes them; the clock does not go back and stands still within a synchronous block; expiry may come at any time; a lost isolate keeps every row it wrote; waits on the actor's own storage do not let other handlers in.
- Meter.SpentIsConserved: one UTC day, since a settlement after midnight goes to the next day's counters; amounts are reals; a caller that is lost, or whose settle call fails, stays an outstanding reservation.
- Desk.AlwaysInv: request ids are fresh, as `randomUUID` makes them; `#confirmQueued`, speech, traces and messages other than the close messages are not modelled; expiry callbacks may come at any time, also while a library call is awaited; that a woken waiter eventually gets the desk is not claimed.
- Desk.DeskActor.StartTurn: the abort flag and the connection of the turn are not modelled.
- Transcript.RunTurn: model outputs, tool results, their exceptions and the abort flag are arbitrary functions of the round; schema checks of tool arguments happen inside the tool.
- AskCap.CountIsSlotsHeld: one UTC day; a refund whose call fails keeps its slot, as the code accepts; empty tokens, which are turned away before any table is read, are left out.
- URL parsing, the hostname policy and the blocked-range tables of `demos/byok-playground/src/worker/ssrf.ts` are branch reading only.
- HMAC and SHA digests, Turnstile, rate limiters, models, DNS and `fetch` are outcomes chosen by the environment.
- The rest of the demos: pages, audio, drawing, galleries, search, memory recall and the scripts around them.
