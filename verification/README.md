# gallium: reuse that agrees with the slow path, and scanners that agree with their printers

A Dafny model of the parts of gallium where being wrong is silent.

**A prompt cache that must not be noticed** (`SlotSpec`, `SlotProofs`, `CallProofs`, `PoolSpec`,
`PoolProofs`, `ContextSize`, `LlamaLocal`, `TurnProofs`, `WarmProofs`). The llama.cpp backend keeps contexts
between turns, together with a record of the tokens each one has absorbed. A call trims the context to the prefix it shares with
the new prompt, is sometimes refused, then restores a checkpoint or clears everything, evaluates the rest,
samples and records. `SlotSpec` says what a call does as a function of the slot, the prompt and every
answer llama.cpp may give; `LlamaLocal` has the provider, the slots and the pool as mutable objects whose
methods are proved against those functions; `PoolSpec` is a machine that interleaves any number of turns.
The central result is that reuse refines the throwaway context of `generate_fresh`: in every reachable
state a call on a retained slot says what a cold context of the same size would have said.

**The same idea over one tensor cache** (`CandleSpec`, `CandleProofs`, `Candle`): the record follows the
cache on success and failure, and image feature rows land on the image tokens they belong to although only
a suffix of the prompt is evaluated.

**Hand-written scanners** (`Text`, `Template*`, `Gemma*`, `Harmony*`): the Jinja marker rewriter keeps a
template's lexical structure; the Gemma and Harmony tool-call parsers invert printers for every syntax they
accept. Each scanner is a function of the text still ahead, with theorems about it; the `*Scan` modules hold
the source's loops, each proved to compute that function.

**Three small protocols** (`Sweep*`, `Steer`, `Approval`): a plan-then-write file sweep, the steering inbox
of a running turn, and the approval broker, over whole runs.

## What is assumed of the outside

- llama.cpp's answers are an adversary's (`SlotSpec.Env`): a partial trim may be refused or be an error, and
  then changes nothing; a snapshot, a restore, a prefill or a decode may fail; a failed restore leaves
  anything at all in memory, a failed prefill or decode leaves anything past what was there; clearing
  everything always works, as the comment at `llm_local.rs:1924-1926` says.
- The model, sampler, end-of-generation and stop tests are one function of what the memory holds and of
  where the prompt ended, so a memory that held anything but the prompt would show as a different reply.
- `Honest`: an architecture the source trusts to restore its state does. `LossyRestoreCanSpeakWrong` shows
  that nothing else protects the reply.
- The candle model's `rewind`, `reset` and `generate_reusing` are the contracts their callers' comments state
  (`llm_candle.rs:427-438`, `:510-514`, `:573-585`). Two simplifications: a generation uses up the staged rows even
  when it fails before its prefill, where the model keeps them for a later one, and rows are injected into a suffix
  of one token too, where the model injects only into longer ones
  (`crates/gallium-models/src/gemma4_vision.rs:1239`, `:1258-1270`).
- Harmony is given JSON parsing as a partial function; the sweep is given regular-expression substitution and
  the disk as functions.

## Where the code and what is said of it differ

The model follows the code; each difference is a theorem.

- A marker that strips on one side only may lose the side: `{%- generation %}` and `{% generation -%}` both
  become `{#-#}`, so no reading of comments keeps both (`OneSidedMarkersCollide`); whatever the reading, a marker
  keeps its control exactly when it strips on neither or both sides or as that comment does (`ControlIsKept`).
  The documentation and the tests say every spelling keeps its control.
- "A size that failed once will not be asked for again" holds exactly when a retry was made: sizes up to
  4097, and sizes in the last partial chunk below 2^32, leave the ceiling alone (`FailedSizeComesBack`, `RetryShape`).
- "The chunk beneath the failure" is the largest chunk below it unless the failed size is one over a chunk;
  then one is skipped (`RetryIsLargestChunkBelow`).
- A reply may decode one token more than its budget. It never does exactly when the context has no room for
  that token (`BudgetKeptExactly`).
- A delimited Gemma value that holds the delimiter is not always the value that is read, although the comments at
  `gemma.rs:202-216` speak only of a delimiter right before a comma. What matters is where the value leaves the
  scanner (`StrayValueExact`, `ValueBeforeBrace`). With its delimiters in pairs around balanced text it is like any
  other (`PairedIsAtLevel`, `PairedIsOk`). With one, and none after it in the reply, it comes back whole exactly
  when the text after the delimiter does not close a brace too many and does not start with a comma
  (`OneStrayExact`, `OneStrayCounted`); otherwise it is cut at the delimiter and the rest of it is read as a new
  reply (`StrayIsCut`, `CodeIsCut`).
- When it comes back whole its call is read as it was written exactly when no colon follows either, which would
  make a key of the text after the brace (`StrayIsRecovered`). Calls that follow are not read
  (`NoLaterCallIsRead`), and the value swallows the text of the next one (`StraySwallowsNextCall`).
- In Harmony a `to=` followed by one unbroken run up to the call's closing token is a boundary, even inside
  JSON (`TailRunIsMarker`). A call's window is whole exactly when its text holds no boundary but the header,
  and is otherwise cut short at the first one (`FirstWindowExact`); `HeadersAreMarkersExactly` reduces the
  round trip's hypothesis to each call on its own.
- The candle backend reuses by token ids, and all images have the same one. Another picture in the same framing
  keeps the first picture's rows (`DifferentPictureIsReused`, and `DifferentPictureIsRestored` with a checkpoint), although the comment at `llm_candle.rs:1104-1108`
  says the staging is never wrong about which image is which. The cache is right exactly when both requests
  mean the same rows in what is reused (`CallIsAlignedExactly`, `ReusedRowsAreRight`).
- `tag_end` slices its source at every byte outside quotes, so a template with a character that is not ASCII
  inside a tag and outside its strings makes it panic, exactly then (`TagEndOfEncoding`).

## Model

| member | source | states |
|---|---|---|
| PoolProofs.EveryTurnRefinesFresh | crates/gallium-agent/src/llm_local.rs:1820-2031 | In every state any interleaving of turns can reach, a call on a checked-out slot, whatever llama.cpp answers short of a trim error, gives the reply or the error a fresh context of that size would give; its record fits its context, and an architecture that does not round-trip holds no checkpoint |
| SlotProofs.ReuseRefinesFresh | crates/gallium-agent/src/llm_local.rs:1774-2031 | On any slot with a true record the reusing path and the fresh path agree, error for error, and reuse evaluates at least one and never more of the prompt's tokens |
| SlotProofs.CallKeepsInv | crates/gallium-agent/src/llm_local.rs:1894-2031 | On every exit, errors and cancellation included, the record is a prefix of the memory, a checkpoint encodes exactly a non-empty prefix of the record, and if sampling began the memory then held exactly the prompt |
| SlotProofs.RollbackIsExact | crates/gallium-agent/src/llm_local.rs:1908-1991 | Trimmed, restored or reset, memory and record are both exactly the kept prefix of the prompt, and a non-empty prompt has a token left to evaluate; how much that is is stated by `HonouredTrimReuses` and `RefusalIsTold` |
| SlotProofs.ServedKeepsInv | crates/gallium-agent/src/llm_local.rs:1998-2031 | Once the prefill is through, sampling starts from exactly the prompt, and whether it ends well or not the record stays a prefix of the memory |
| SlotProofs.SamplingBound | crates/gallium-agent/src/llm_local.rs:2242-2447 | Sampling only appends; what it decoded is exactly what was appended, ends within the context and is at most one over the budget; what it spoke is that, plus at most one last token; which tokens they are is stated by `RepliesAreDraws` |
| CallProofs.RepliesAreDraws | crates/gallium-agent/src/llm_local.rs:2242-2447 | In terms of the model alone: each token decoded is the model's draw on the prompt and those before it, one that neither ends the turn nor stops it and has room, at no fault; the loop ends at the first draw that ends the turn (unspoken), stops or finds no room (spoken last), at a fault that is reached, or with its budget |
| CallProofs.CallSaysTheDraws | crates/gallium-agent/src/llm_local.rs:1998-2031 | A reply on a slot with a true record is those draws on the prompt and nothing else; an interrupted call was interrupted at a draw it reached |
| CallProofs.CallFailsExactly | crates/gallium-agent/src/llm_local.rs:134-157 | Which error a call gives, exactly: a trim that is an error, an empty prompt, one longer than the context, a prefill that fails; any other call reaches sampling |
| CallProofs.HonouredTrimReuses | crates/gallium-agent/src/llm_local.rs:1908-1950 | With a trim that is honoured nothing the record and a longer prompt agree on is evaluated again, checkpoint or none, and the reply reports how much was reused, or a fresh context if nothing |
| CallProofs.ProvenanceIsTrue | crates/gallium-agent/src/llm_local.rs:1940-1991 | What a reply reports of its cache is so: reported plus evaluated is the prompt, a restore or a reset was preceded by a refusal, a restore by a checkpoint of that length |
| CallProofs.RefusalIsTold | crates/gallium-agent/src/llm_local.rs:1954-1991 | After a refused trim the reply reports a restore if and only if there is a checkpoint the prompt extends that could be put back, and otherwise a reset |
| CallProofs.LatchIsExact | crates/gallium-agent/src/llm_local.rs:1970-1973 | Refusals are latched after a call if and only if they were before it, its own trim was refused, or another turn's was while it was decoding |
| CallProofs.NoSnapshotUnlessRefused | crates/gallium-agent/src/llm_local.rs:2506-2509 | While no refusal is latched a call takes no snapshot: a checkpoint after it was there before |
| CallProofs.RecentCheckpointIsSpared | crates/gallium-agent/src/llm_local.rs:2516-2529 | A checkpoint the prompt extends by less than an eighth stays as it is |
| CallProofs.LossyArchHoldsNone | crates/gallium-agent/src/llm_local.rs:549-570 | The one architecture whose restores are known to be lossy, deepseek4, never holds a checkpoint |
| CallProofs.FailedSnapshotLeavesNone | crates/gallium-agent/src/llm_local.rs:2540-2546 | A snapshot that fails leaves no checkpoint; one that is there afterwards was spared |
| SlotProofs.ReplyIsBounded | crates/gallium-agent/src/llm_local.rs:2242-2447 | After a reply, record and memory are both the prompt and the decoded tokens, which fit the context and are at most one over the budget |
| SlotProofs.EndlessModelDecodes | crates/gallium-agent/src/llm_local.rs:2277-2305 | A model that never ends its turn decodes exactly the lesser of budget plus one and the room left: the bound is reached |
| SlotProofs.BudgetKeptExactly | crates/gallium-agent/src/llm_local.rs:2277-2305 | No model and no interruption can make sampling decode more than its budget if and only if the context ends at or before the prompt and its budget |
| SlotProofs.RoomyContextsSpeakAlike | crates/gallium-agent/src/llm_local.rs:2242-2447 | Two contexts that both hold the prompt and its budget say the same, whatever their sizes, unless a decode fails at the one token over it |
| SlotProofs.CheckpointIsRecent | crates/gallium-agent/src/llm_local.rs:2506-2548 | With refusals latched and snapshots working, a call that reaches sampling leaves a checkpoint c with 8(L-c) < L for its prompt length L |
| SlotProofs.RefusedTrimIsCheap | crates/gallium-agent/src/llm_local.rs:1908-1982 | With such a checkpoint, a longer prompt that agrees on L recorded tokens evaluates fewer than L/8 tokens beyond its new ones, trim honoured or refused |
| SlotProofs.NextCallIsCheap | crates/gallium-agent/src/llm_local.rs:1908-2003 | The same over two consecutive calls: a prompt extending the last one pays for a refused trim less than an eighth of it |
| SlotProofs.LossyRestoreCanSpeakWrong | crates/gallium-agent/src/llm_local.rs:549-570 | Where an architecture is trusted but its restore is lossy, a slot with a true record can answer differently from a fresh context |
| PoolProofs.ReachableInv | crates/gallium-agent/src/llm_local.rs:1820-1884 | Every interleaving keeps: busy counts the turns in flight, idle plus busy within capacity, every record true, ticks distinct over all slots and never ahead of the pool's |
| PoolProofs.PoolSafety | crates/gallium-agent/src/llm_local.rs:1820-1884 | In every reachable state busy is the number of turns (so 0 without any, and positive at each decrement), and retained contexts, undropped victims included, never exceed capacity |
| PoolProofs.ReservingKeepsInv | crates/gallium-agent/src/llm_local.rs:2050-2106 | A reservation keeps that invariant, whichever way out it takes |
| PoolProofs.LeavingKeepsInv | crates/gallium-agent/src/llm_local.rs:1854-1883 | So do a failed build that gives its capacity back and a slot that is returned |
| PoolProofs.ReserveChooses | crates/gallium-agent/src/llm_local.rs:2050-2106 | In reachable states: a fitting idle slot with the longest shared prefix; an eviction only when full and nothing idle fits, and then of the unique least recently reserved slot; all-busy exactly when nothing is idle and every slot is out |
| PoolProofs.WarmSlotIsNeverEvicted | crates/gallium-agent/src/llm_local.rs:2050-2106 | A fitting idle slot that shares any prefix is never passed over for a build or an eviction |
| PoolProofs.ReserveTakesOne | crates/gallium-agent/src/llm_local.rs:2050-2106 | A reservation takes one idle slot, stamped and otherwise as it was, or a free place, or evicts one slot for a place, counts it as busy, and asks for the size it was given; or changes nothing but the tick |
| PoolProofs.SlotsAreConserved | crates/gallium-agent/src/llm_local.rs:1833-1883 | Slots idle and in flight change in number only when a reservation grows the pool or a build fails, and a returned one is idle again as its turn left it, beside all the others |
| PoolSpec.Warmest | crates/gallium-agent/src/llm_local.rs:2050-2075 | The slot found fits and no fitting slot shares more with the prompt; none is found only if none fits |
| PoolSpec.Coldest | crates/gallium-agent/src/llm_local.rs:2085-2095 | The slot found is the least recently used, the first of equals; none is found only in an empty pool |
| Common.ReusablePrefix | crates/gallium-agent/src/llm_local.rs:1908 | What is kept is shared with the record and never the whole of a non-empty prompt |
| Common.CommonPrefixLen | crates/gallium-agent/src/llm_local.rs:97-99 | The two sequences agree up to there and differ, or one ends, right after |
| TurnProofs.TurnSaysWhatFreshWould | crates/gallium-agent/src/llm_local.rs:1820-1884 | A whole turn from any reachable state: on a slot built for it or on none, exactly what `generate_fresh` says with the same allocations; on a retained slot exactly what a fresh context of that size says, and, unless the ceiling capped the size below prompt and budget, word for word what `generate_fresh` says at the size it asks for; busy and the pool's invariant are as before |
| TurnProofs.OneTurnIsARun | crates/gallium-agent/src/llm_local.rs:1820-1884 | What the turn's method does is a run of the interleaving machine that leaves no trace in the turns in flight |
| WarmProofs.WarmTurnReuses | crates/gallium-agent/src/llm_local.rs:1820-1884 | A turn that finds a fitting idle slot agreeing with the start of its prompt, its trim honoured, evaluates none of that again, on that slot or on a warmer one |
| WarmProofs.TurnLeavesItsSlot | crates/gallium-agent/src/llm_local.rs:1868-1883 | A turn that replied on a slot leaves one idle whose record is its prompt and what it decoded |
| WarmProofs.NextTurnIsWarm | crates/gallium-agent/src/llm_local.rs:1820-1884 | So over two turns: a prompt that continues the last prompt and its reply evaluates only what is new, as long as the slot is large enough |
| WarmProofs.TurnLowersCeiling | crates/gallium-agent/src/llm_local.rs:2186-2218 | After a turn that had to retry no prompt of any length is given the size that failed; no other turn moves the ceiling |
| WarmProofs.BuiltShape | crates/gallium-agent/src/llm_local.rs:2169-2218 | A build comes to the size asked for or, after one failure, to a positive multiple of 4096 at most 4097 below it, or to nothing where there is no such size or it fails too |
| LlamaLocal.LlamaLocalProvider.GenerateReusing | crates/gallium-agent/src/llm_local.rs:1820-1884 | The method over real slot and pool objects leaves pool, refusal latch, ceiling and reply as the one-turn function says |
| LlamaLocal.LlamaLocalProvider.GenerateReserved | crates/gallium-agent/src/llm_local.rs:1833-1884 | From the reservation on: a warm slot is used, a victim goes no further before its replacement is built, a full pool falls back to a fresh context |
| LlamaLocal.LlamaLocalProvider.BuildAndGenerate | crates/gallium-agent/src/llm_local.rs:1837-1861 | A slot is built, stamped with the reservation's tick, used and returned; a failed build gives the capacity back |
| LlamaLocal.LlamaLocalProvider.GenerateAndReturn | crates/gallium-agent/src/llm_local.rs:1868-1883 | The slot is returned to the pool whichever way its call went |
| LlamaLocal.LlamaLocalProvider.GenerateInSlot | crates/gallium-agent/src/llm_local.rs:1894-2031 | The method leaves slot, memory and latch, and replies, as the specified call does |
| LlamaLocal.LlamaLocalProvider.RollBack | crates/gallium-agent/src/llm_local.rs:1908-1991 | Trim, else restore, else clear, and cut record and checkpoint down to what is kept; a trim error changes nothing |
| LlamaLocal.LlamaLocalProvider.Serve | crates/gallium-agent/src/llm_local.rs:1998-2031 | The record claims the prompt before sampling and the decoded tokens only after it ended well |
| LlamaLocal.LlamaLocalProvider.TakeCheckpoint | crates/gallium-agent/src/llm_local.rs:2506-2548 | Nothing unless refusals are latched and the architecture round-trips; kept while an eighth is not new; a failed snapshot drops the old one |
| LlamaLocal.LlamaLocalProvider.RestoreCheckpoint | crates/gallium-agent/src/llm_local.rs:2569-2594 | A usable checkpoint that takes is kept; any other is dropped |
| LlamaLocal.LlamaLocalProvider.SampleUntilDone | crates/gallium-agent/src/llm_local.rs:2242-2447 | The loop decodes and speaks what the recursive sampling specification says, failures and cancellation at any draw included |
| LlamaLocal.LlamaLocalProvider.BuildContext | crates/gallium-agent/src/llm_local.rs:2169-2218 | One retry at the lowered size; the ceiling is lowered exactly when a retry is made, before it is made |
| LlamaLocal.LlamaLocalProvider.GenerateFresh | crates/gallium-agent/src/llm_local.rs:1774-1805 | A throwaway context: the fresh specification at the size that could be built |
| LlamaLocal.Feed | crates/gallium-agent/src/llm_local.rs:134-157 | Refuses an empty or an overflowing prompt before touching the memory; appends otherwise |
| LlamaLocal.SlotPool.Reserve | crates/gallium-agent/src/llm_local.rs:2050-2106 | The method over slot objects decides and changes the pool as the specification does; a slot handed out is no longer in the pool, nor shares a context with it |
| LlamaLocal.SlotPool.Choose | crates/gallium-agent/src/llm_local.rs:2053-2096 | Which of the four ways out is taken |
| LlamaLocal.SlotPool.FindWarmest | crates/gallium-agent/src/llm_local.rs:2055-2063 | The search loop finds the warmest fitting slot |
| LlamaLocal.SlotPool.FindColdest | crates/gallium-agent/src/llm_local.rs:2087-2092 | The search loop finds the least recently reserved slot |
| LlamaLocal.SlotPool.Return | crates/gallium-agent/src/llm_local.rs:1880-1882 | busy falls by one and the slot, as it now is, is idle again |
| ContextSize.SizeHoldsPrompt | crates/gallium-agent/src/llm_local.rs:170-177 | In 32-bit saturating arithmetic: never above the ceiling, and below it a whole number of chunks that holds the floor and the prompt with its budget |
| ContextSize.SizeIsLeast | crates/gallium-agent/src/llm_local.rs:170-177 | No smaller multiple of 4096 within the ceiling would hold floor and prompt with budget; and a size that does not hold them is the ceiling |
| ContextSize.SizeIsMonotone | crates/gallium-agent/src/llm_local.rs:170-177 | A longer prompt never gets a smaller context |
| ContextSize.RetryShape | crates/gallium-agent/src/llm_local.rs:2189-2191 | For which sizes there is a retry, and that it is a positive multiple of 4096 below the failed size by at most 4097 |
| ContextSize.RetryIsLargestChunkBelow | crates/gallium-agent/src/llm_local.rs:2190 | The retry is the largest chunk below the failure if and only if the failed size is not one over a chunk |
| ContextSize.FailedSizeComesBack | crates/gallium-agent/src/llm_local.rs:333-337 | No later prompt asks for the failed size or more if and only if a retry was made; otherwise every prompt that asked for it asks for it again |
| ContextSize.CeilingBelowRetries | crates/gallium-agent/src/llm_local.rs:2204-2207 | Whatever order concurrent failures land in, the ceiling ends at or below every retry made, so below every size that failed with one |
| ContextSize.CeilingIsAttained | crates/gallium-agent/src/llm_local.rs:2204-2207 | And no lower: it ends where it started or at one of the retries made |
| ContextSize.CeilingDescends | crates/gallium-agent/src/llm_local.rs:2204-2207 | Over any failures in any order the ceiling only descends, stays positive and moves at most C/4096 times from C |
| TemplateProofs.StripPreservesStructure | crates/gallium-agent/src/llm_local.rs:1155-1274 | Segmenting the output gives the input's segments, each executable marker replaced by an empty comment and all else unchanged |
| TemplateProofs.StripIsIdempotent | crates/gallium-agent/src/llm_local.rs:1155-1207 | Stripping twice is stripping once, and no marker is left to execute |
| TemplateProofs.StripLeavesAlone | crates/gallium-agent/src/llm_local.rs:1143-1154 | A template is unchanged to the character if and only if no marker in it executes; one that prints a marker is untouched |
| TemplateProofs.SegmentsCover | crates/gallium-agent/src/llm_local.rs:1155-1207 | The segments of a template are the whole template, in order |
| TemplateProofs.FirstLocal | crates/gallium-agent/src/llm_local.rs:1216-1274 | A construct is read the same whatever follows it, down to one character |
| TemplateProofs.UnterminatedIsCopied | crates/gallium-agent/src/llm_local.rs:1151-1154 | A statement tag that never ends is copied as it is, whatever it spells |
| TemplateProofs.ControlIsKept | crates/gallium-agent/src/llm_local.rs:1121-1122 | For any reading of comments in which one without dashes strips nothing and one with both strips both sides, a marker keeps its whitespace control if and only if it strips on neither or both sides or as the comment with one dash is read |
| TemplateProofs.OneSidedMarkers | crates/gallium-agent/src/llm_local.rs:3058-3059 | The two one-sided spellings, concretely, are markers with different control and the same comment |
| TemplateProofs.OneSidedMarkersCollide | crates/gallium-agent/src/llm_local.rs:3050-3059 | No reading of comments gives every marker's control back |
| TemplateWordProofs.MarkersBecomeComments | crates/gallium-agent/src/llm_local.rs:1180-1190 | Before any text `generation` and `endgeneration`, with any spaces and any number of control dashes, become the empty comment with a dash for each side that has some, and the text is stripped as if it stood alone |
| TemplateWordProofs.MarkerIsStripped | crates/gallium-agent/src/llm_local.rs:1180-1190 | Any tag without strings that names a marker becomes the empty comment with its control, whatever follows |
| TemplateWordProofs.StatementIsKept | crates/gallium-agent/src/llm_local.rs:1180-1197 | One that names anything else stays, unless it opens a raw block |
| TemplateWordProofs.RawIsKept | crates/gallium-agent/src/llm_local.rs:1191-1194 | A raw block stays to the character, a marker or other tag in it included, and stripping goes on behind its `endraw` |
| TemplateWordProofs.QuotedIsKept | crates/gallium-agent/src/llm_local.rs:1173-1178 | An expression that prints a text, markers and closers in it included, stays |
| TemplateWordProofs.CommentIsKept | crates/gallium-agent/src/llm_local.rs:1166-1170 | So does a comment, markers in it included |
| TemplateScan.StripGenerationMarkers | crates/gallium-agent/src/llm_local.rs:1155-1207 | The loop computes the segment-wise rewriting |
| TemplateScan.RewriteConstruct | crates/gallium-agent/src/llm_local.rs:1165-1202 | One round rewrites the construct at a brace and ends where that segment ends |
| TemplateScan.RewriteTag | crates/gallium-agent/src/llm_local.rs:1180-1197 | A marker, a raw block with all it governs, or the tag itself |
| TemplateScan.TagEnd | crates/gallium-agent/src/llm_local.rs:1230-1258 | Over characters, the loop finds where the tag ends outside its quoted strings, or the end of the text |
| TemplateBytes.TagEndOfEncoding | crates/gallium-agent/src/llm_local.rs:1230-1258 | Over the UTF-8 bytes the source walks, the scan panics if and only if the tag shows a character that is not ASCII outside its strings before it ends, and otherwise ends where the scan of characters does |
| TemplateBytes.TagEndOfBytes | crates/gallium-agent/src/llm_local.rs:1230-1258 | The loop over bytes, its slice at every byte outside quotes included, computes that scan |
| TemplateScan.RawBlockEnd | crates/gallium-agent/src/llm_local.rs:1262-1274 | The loop finds the end of the matching `endraw`, or the end of the text |
| GemmaScanProofs.CallsRoundTrip | crates/gallium-agent/src/gemma.rs:40-78 | Any calls, keys bare or quoted and values delimited, quoted or bare in any mix, with any spaces and separators between, any delimiters in values that leave the scanner at the call's own level, and any text around that opens no call itself, parse back to exactly those calls in order |
| GemmaScanProofs.BodyEndsAtBrace | crates/gallium-agent/src/gemma.rs:99-181 | The scanner stops at the call's own brace, whatever braces, quotes, commas, delimiters or whole calls its values hold, as long as each leaves it outside any string at the call's depth |
| GemmaScanProofs.BraceIsSeenExactly | crates/gallium-agent/src/gemma.rs:99-181 | And for a delimited value only then: the brace after it is taken for the call's if and only if the value leaves the scanner there |
| GemmaScanProofs.ScanJoined | crates/gallium-agent/src/gemma.rs:99-181 | A text is scanned the same whatever follows it, unless a delimiter or an escape reaches over the join |
| GemmaScanProofs.CallIsRead | crates/gallium-agent/src/gemma.rs:40-78 | One written call is read whole, whatever text without an opening stands before it, and parsing goes on right after it |
| GemmaProofs.ArgumentsRoundTrip | crates/gallium-agent/src/gemma.rs:231-286 | The argument parser recovers every pair in every mix of syntaxes, later keys winning; delimiters inside a value are harmless unless one precedes a comma; what a bare value means is stated by `BareTextIsString` and the rows beside it |
| GemmaProofs.ScanQuotedRoundTrip | crates/gallium-agent/src/gemma.rs:295-321 | Reading a quoted string undoes escaping it, for any text and whatever follows |
| GemmaProofs.ClosingDelimExact | crates/gallium-agent/src/gemma.rs:216-229 | A delimited value is closed at its own end if and only if no delimiter inside it is followed, spaces apart, by a comma |
| GemmaValueProofs.EveryCallCanBeWritten | crates/gallium-agent/src/gemma.rs:40-359 | Every call with arguments of any names and any non-float scalar values has a spelling that reads back to it |
| GemmaValueProofs.IntRoundTrip | crates/gallium-agent/src/gemma.rs:344-359 | Every 64-bit integer, printed in decimal, is parsed back as itself |
| GemmaWordProofs.BareTextIsString | crates/gallium-agent/src/gemma.rs:344-359 | A bare text that is none of the three words is a string, and that string, unless it could be a number: it is if a character of it cannot stand in one, or if it has no digit and does not spell infinity or nan |
| GemmaWordProofs.BareTextRoundTrip | crates/gallium-agent/src/gemma.rs:231-359 | A call with such a bare argument gives it back as that string, whatever follows the call |
| GemmaWordProofs.BarePathIsRead | crates/gallium-agent/src/gemma.rs:40-78 | Concretely, the reply `call:Read{path:src/main.rs}` is one call of Read with the string src/main.rs |
| GemmaWordProofs.DelimitedIsRead | crates/gallium-agent/src/gemma.rs:40-78 | And, concretely, a name with dots, dashes, digits and underscores, spaces in the opening, and braces in a delimited value |
| GemmaWordProofs.NestedIsRead | crates/gallium-agent/src/gemma.rs:99-181 | A bare value that is an object with a quoted key is read whole as its text, whatever braces the key holds |
| GemmaWordProofs.DecimalIsFloat | crates/gallium-agent/src/gemma.rs:344-359 | Digits with a point before, among or behind them, with an exponent or both, and with a sign, are a float kept as it is spelled |
| GemmaWordProofs.BigIntIsFloat | crates/gallium-agent/src/gemma.rs:344-359 | An integer outside 64 bits is a float |
| GemmaWordProofs.NanIsFloat | crates/gallium-agent/src/gemma.rs:344-359 | Nan and infinity are floats in any case and with a sign |
| GemmaWordProofs.PlusIsRead | crates/gallium-agent/src/gemma.rs:344-359 | A plus sign before a 64-bit integer says nothing |
| GemmaWordProofs.BackslashIsKept | crates/gallium-agent/src/gemma.rs:323-340 | In a quoted string a backslash is dropped before a quote of either kind or another backslash, and kept before anything else |
| GemmaWordProofs.OpenQuoteTakesAll | crates/gallium-agent/src/gemma.rs:295-321 | A quoted string that is never closed takes all there is, a last backslash included |
| GemmaWordProofs.EmptyKeyStops | crates/gallium-agent/src/gemma.rs:231-286 | An empty key, bare or quoted, ends the arguments |
| GemmaWordProofs.CutOffCall | crates/gallium-agent/src/gemma.rs:66-74 | A call cut off inside its last delimited value is read with the arguments before it and as much of that value as there is |
| GemmaStrayProofs.StrayValueExact | crates/gallium-agent/src/gemma.rs:216-229 | A last delimited value, whatever it holds and whatever follows, is read as written if and only if it does not end the call, no delimiter in it precedes a comma, and what the call goes on with starts with a comma, is empty or holds no delimiter |
| GemmaStrayProofs.ValueBeforeBrace | crates/gallium-agent/src/gemma.rs:99-181 | Before the call's own brace: at the call's level, if and only if no delimiter in it precedes a comma; inside a string, if and only if besides none follows in the reply; with none following, if and only if besides it does not end the call |
| GemmaStrayProofs.OneStrayExact | crates/gallium-agent/src/gemma.rs:202-229 | With one delimiter in it and none following, the value is whole if and only if the text after the delimiter neither ends the call nor starts with a comma; otherwise it is what is before the delimiter |
| GemmaStrayProofs.OneStrayCounted | crates/gallium-agent/src/gemma.rs:118-181 | Where that text has no quotes, that is: no prefix of it closes more braces than it opens, and its first non-space is no comma |
| GemmaStrayProofs.PairedIsAtLevel | crates/gallium-agent/src/gemma.rs:118-123 | Parity decides: delimiters in pairs around text with balanced braces leave the scanner outside any string at the call's level |
| GemmaStrayProofs.UnpairedIsInString | crates/gallium-agent/src/gemma.rs:118-123 | And one delimiter more leaves it inside a string |
| GemmaStrayProofs.PairedIsOk | crates/gallium-agent/src/gemma.rs:118-123 | So a value with its delimiters in pairs, none before a comma, may be written like any other |
| GemmaStrayProofs.DelimitedIsOkExactly | crates/gallium-agent/src/gemma.rs:99-229 | A delimited value may be written, in the sense of the round trip, if and only if none of its delimiters precedes a comma and it leaves the scanner at the call's level |
| GemmaStrayCalls.LastValueIsRead | crates/gallium-agent/src/gemma.rs:40-78 | A call whose last value holds anything at all: the arguments before it are read as written, the value is what is read of what the scanner leaves of it, the rest is read for more arguments, and calls are sought after the end |
| GemmaStrayCalls.StrayIsCut | crates/gallium-agent/src/gemma.rs:99-181 | When the text after a stray delimiter closes a brace too many the call ends there: its value is what is before the delimiter, the text up to the brace is read for more arguments, and the rest of the value as a new reply |
| GemmaStrayCalls.CodeIsCut | crates/gallium-agent/src/gemma.rs:202-205 | Concretely, a value of code with a delimiter and then a closing brace comes back cut at the delimiter |
| GemmaStrayCalls.StrayDelimiterFallback | crates/gallium-agent/src/gemma.rs:66-74 | A call that its last value leaves open is the only one read; the value is the one written or runs on to a later delimiter, and the rest of the reply is read for more arguments |
| GemmaStrayCalls.StrayIsRecovered | crates/gallium-agent/src/gemma.rs:574-584 | With no delimiter after it such a call is read as it was written, arguments before included, if and only if no colon follows (for arguments that do not already have the key a colon would make of the text after the brace) |
| GemmaStrayCalls.OneStrayIsRecovered | crates/gallium-agent/src/gemma.rs:574-584 | One delimiter inside text that does not end the call and does not start with a comma after it is such a case |
| GemmaStrayCalls.LeftoverExact | crates/gallium-agent/src/gemma.rs:231-286 | The text after an unseen brace adds nothing to the arguments if and only if it holds no colon; otherwise it adds a key that starts with the brace |
| GemmaStrayCalls.NoLaterCallIsRead | crates/gallium-agent/src/gemma.rs:66-74 | After a value that leaves the scanner in a string, one call is read however many follow, whatever their arguments, if their delimited values do not end a call themselves |
| GemmaStrayCalls.StraySwallowsNextCall | crates/gallium-agent/src/gemma.rs:66-74 | The following call is lost into the value, which runs on through its text to the end of its first value; its other arguments become this call's |
| GemmaScan.ParseNativeToolCalls | crates/gallium-agent/src/gemma.rs:40-77 | The loop collects the calls the parsing function gives |
| GemmaScan.ScanCallBody | crates/gallium-agent/src/gemma.rs:99-181 | The state machine finds the body and the end the scanning function gives |
| GemmaScan.FindClosingDelim | crates/gallium-agent/src/gemma.rs:216-229 | The loop finds the first structural delimiter, else the last one |
| GemmaScan.ReadQuoted | crates/gallium-agent/src/gemma.rs:295-321 | The loop reads a quoted string and the rest after it |
| GemmaScan.ParseKvArgs | crates/gallium-agent/src/gemma.rs:231-286 | The loop reads the pairs, stopping where the source stops, as the parsing function does |
| HarmonyProofs.CallsRoundTrip | crates/gallium-agent/src/harmony.rs:78-123 | Printed calls whose headers are the only boundaries parse back in order, whatever closing tokens, messages or braces the payloads hold and whatever `to=` that is no boundary stands between, the last one even if it was cut off; one whose JSON does not parse yields none |
| HarmonyProofs.CallIsRead | crates/gallium-agent/src/harmony.rs:93-121 | One printed call is read whole and the rest of the reply as if it stood alone |
| HarmonyProofs.FirstWindowExact | crates/gallium-agent/src/harmony.rs:93-97 | A call's window is its whole text and what follows up to the next boundary if and only if the text holds no boundary but the header; otherwise the window is cut short at the first one it holds |
| HarmonyProofs.HeadersAreMarkersExactly | crates/gallium-agent/src/harmony.rs:79-92 | In a text of printed calls the headers are the only boundaries if and only if each call on its own holds none but its header |
| HarmonyProofs.WindowsTile | crates/gallium-agent/src/harmony.rs:79-121 | For any text the windows are ordered, disjoint and tile it from the first boundary on, and there are at most as many calls |
| HarmonyProofs.RealBefore | crates/gallium-agent/src/harmony.rs:64-92 | Whether a `to=` is a boundary depends on nothing past the next token |
| HarmonyProofs.TailRunIsMarker | crates/gallium-agent/src/harmony.rs:82-97 | A payload ending in `to=` and one unbroken run holds a boundary, and the call's window ends at the first boundary in its text |
| HarmonyProofs.WindowGivesCall | crates/gallium-agent/src/harmony.rs:95-121 | A call's window gives its recipient and its whole payload, up to its own closing token |
| HarmonyWordProofs.PlainCallIsRead | crates/gallium-agent/src/harmony.rs:64-123 | A reply with one call, a bare word or none before its message, gives the name whether or not `functions.` precedes it, and the JSON of the trimmed payload, also when it was cut off |
| HarmonyWordProofs.NamelessIsNoCall | crates/gallium-agent/src/harmony.rs:101-107 | With nothing or only the namespace after `to=` there is no call |
| HarmonyWordProofs.ProseIsNoCall | crates/gallium-agent/src/harmony.rs:46-92 | A `to=` followed by a recipient and more than one word, or by something before the next token that is no bare word, is no call |
| HarmonyScan.FindMarkers | crates/gallium-agent/src/harmony.rs:79-92 | The first loop finds the boundaries, in order and disjoint |
| HarmonyScan.ParseCalls | crates/gallium-agent/src/harmony.rs:94-123 | The second loop collects each window's call |
| CandleProofs.RunKeepsInv | crates/gallium-agent/src/llm_candle.rs:290-448 | After every call, failed or not, the record is empty or exactly the tokens the cache holds, and a checkpoint is a prefix of that cache |
| CandleProofs.ReuseIsTrue | crates/gallium-agent/src/llm_candle.rs:515-571 | Reuse claims exactly what the cache then holds, all of it agreeing with the prompt, and leaves a token to evaluate |
| CandleProofs.GenerationIsPrefix | crates/gallium-agent/src/llm_candle.rs:425-448 | A generation, cut short anywhere, leaves a prefix of prompt and answer |
| CandleProofs.RecordIsKept | crates/gallium-agent/src/llm_candle.rs:573-606 | After a call whose cache holds anything the record is exactly that much of prompt and answer, though an answer's last token is never in the cache; a checkpoint is kept with it if the call succeeded and took one; of a model that shows no cache nothing is recorded |
| CandleProofs.HonouredRewindReuses | crates/gallium-agent/src/llm_candle.rs:515-571 | An honoured rewind reuses all a next prompt shares with the record, or all of the checkpoint it extends, and nothing where it extends none |
| CandleProofs.DeniedRewindReusesNothing | crates/gallium-agent/src/llm_candle.rs:515-571 | One that is refused leaves the cache as it was, one that breaks empties it, and both reuse nothing; none is asked for where the first token differs |
| CandleProofs.TextKeepsReuse | crates/gallium-agent/src/llm_candle.rs:1109-1174 | A prompt without image tokens keeps its reuse and is given no rows, however many are staged |
| CandleProofs.SuffixRowsAreRight | crates/gallium-agent/src/llm_candle.rs:1109-1196 | Every image token evaluated in the suffix gets the row a full prefill would give it |
| CandleProofs.MismatchForfeits | crates/gallium-agent/src/llm_candle.rs:1109-1174 | With image markers present, reuse is given up exactly when their number is not that of the rows |
| CandleProofs.ReusedRowsExact | crates/gallium-agent/src/llm_candle.rs:515-523 | Whatever images two requests have, the reused prefix is what a full prefill of the second would hold if and only if both mean the same rows at its images |
| CandleProofs.ReusedRowsAreRight | crates/gallium-agent/src/llm_candle.rs:515-523 | Where the second request has a row for each of its images, that is: every image in the prefix got a row at the time, and it is the one the second request has for it |
| CandleProofs.CallIsAlignedExactly | crates/gallium-agent/src/llm_candle.rs:290-448 | After one request on another's cache, any counts, refusals and failures, the cache holds only what a full prefill would have put there if and only if the two mean the same rows in the part reused |
| CandleProofs.DifferentPictureIsReused | crates/gallium-agent/src/llm_candle.rs:515-523 | Concretely, another picture in the same framing is answered from the first picture's cached row |
| CandleProofs.DifferentPictureIsRestored | crates/gallium-agent/src/llm_candle.rs:515-571 | The same where the cache goes back only to a checkpoint, for a second prompt that extends the first |
| CandleProofs.ConversationIsAligned | crates/gallium-agent/src/llm_candle.rs:989-1196 | Over a conversation in which each request means the same rows as the one before in the tokens they share, with calls refused, failed or cut short and any counts of rows, the cache after each request holds only what a full prefill of it would have put there |
| CandleProofs.GrowingListsAgree | crates/gallium-agent/src/llm_candle.rs:989-1087 | A request whose image list extends the one before it, if that one had rows for all its images, does mean the same rows |
| CandleProofs.AnnotateSplit | crates/gallium-agent/src/llm_candle.rs:1188-1196 | A suffix prefilled with the rows past the prefix's images is the full prefill's suffix |
| Candle.CandleProvider.RunGenerateIds | crates/gallium-agent/src/llm_candle.rs:290-448 | The method leaves record, checkpoint and cache as specified on success and failure, and no rows staged |
| Candle.CandleProvider.RewindToPrefix | crates/gallium-agent/src/llm_candle.rs:515-571 | A rewind refused keeps the cache and reuses nothing; one that breaks resets it |
| Candle.CandleProvider.StagePendingImageFeatures | crates/gallium-agent/src/llm_candle.rs:1109-1174 | Which rows are handed over and how much reuse is left, the staged rows used up in any case |
| Candle.CandleProvider.Remember | crates/gallium-agent/src/llm_candle.rs:586-606 | The record becomes what the cache reports to hold, or nothing, and then no checkpoint either |
| CandleProofs.InjectedInOrder | crates/gallium-agent/src/llm_candle.rs:1095-1102 | A prefill lands its rows on image tokens only, in order, each once, until images or rows run out |
| SweepProofs.SweepIsAllOrNothing | scripts/sweep.py:266-280 | Either the plan fails or is a dry run and nothing is written, or every file is the in-order composition of the edits that hit it |
| SweepProofs.PlanGoesThroughExactly | scripts/sweep.py:175-234 | A plan goes through if and only if at each edit no file, taken alone, refuses its composition so far and some file is hit |
| SweepProofs.PlanIsPerFile | scripts/sweep.py:175-234 | A plan does to each file what it would do if there were no other |
| SweepProofs.TargetsAreIndependent | scripts/sweep.py:205-225 | So does one edit, targets repeated or not, and it marks as pending exactly the files it hit |
| SweepProofs.FileGrowsByHits | scripts/sweep.py:124-143 | For literal edits a file's length changes by the sum of hits times replacement minus needle |
| SweepProofs.ReplaceLength | scripts/sweep.py:124-143 | For one literal replacement the change is count times that difference |
| SweepProofs.ReplaceIsRejoin | scripts/sweep.py:124-143 | A literal replacement cuts the text at the needle, leftmost first, and joins the parts with the replacement; the count is the number of cuts |
| SweepProofs.VisitExact | scripts/sweep.py:195-222 | A file passes a literal edit if and only if the edit is well formed and hits it as often as it says, or not at all where its targets are a pattern |
| SweepProofs.RegexVisitExact | scripts/sweep.py:124-143 | The same for a regular expression, which is given the text and what it counts |
| SweepProofs.CountsAreMet | scripts/sweep.py:205-222 | In a plan that goes through every literal edit hits each file it names as often as it says, counted on the text as the edits before left it |
| SweepProofs.MalformedPassesNowhere | scripts/sweep.py:124-143 | An edit with two ways to find or none, an empty needle or no replacement passes nowhere |
| Sweep.PlanIsOrdered | scripts/sweep.py:227-234 | Every changed file is written once |
| Sweep.RunTargets | scripts/sweep.py:205-225 | The inner loop over an edit's targets, or its first refusal |
| Sweep.MakePlan | scripts/sweep.py:175-234 | The outer loop over the edits, or the first refusal |
| Sweep.Tree.WriteAll | scripts/sweep.py:277-280 | After the write loop planned files have their new text and others their old |
| Sweep.Tree.Sweep | scripts/sweep.py:252-285 | The exit code and the files a whole run leaves |
| Steer.NothingIsLost | crates/gallium-agent/src/cancel.rs:117-164 | Over every interleaving, accepted is delivered followed by pending, in order; an inbox closed only by finishing closed with all delivered |
| Steer.ClosedForGood | crates/gallium-agent/src/cancel.rs:117-124 | Once closed it stays closed and accepts nothing |
| Steer.ClosesNow | crates/gallium-agent/src/cancel.rs:136-152 | Finishing an empty inbox closes it and finishing any other changes nothing; closing always closes |
| Steer.LateIsRefused | crates/gallium-agent/src/cancel.rs:117-152 | No push after either is accepted, whatever happens between |
| Steer.EarlyIsAccepted | crates/gallium-agent/src/cancel.rs:117-124 | A push before is accepted, waits behind the others and is in the next drain |
| Steer.SteerInbox.Push | crates/gallium-agent/src/cancel.rs:117-124 | Accepted exactly when open, and then appended |
| Steer.SteerInbox.Finish | crates/gallium-agent/src/cancel.rs:136-143 | Closes exactly when nothing is pending, and says so |
| Steer.SteerInbox.Close | crates/gallium-agent/src/cancel.rs:150-152 | Closes whatever is pending, and keeps it |
| Steer.SteerInbox.Drain | crates/gallium-agent/src/cancel.rs:159-164 | Hands over everything pending and leaves nothing |
| Approval.GrantsAreAnswered | crates/gallium-agent/src/approval.rs:420-485 | After any session a tier is granted if and only if it is not destructive and somebody allowed it for the session when asked |
| Approval.GrantedForGood | crates/gallium-agent/src/approval.rs:420-429 | Once granted, a tier passes whatever comes after and is never asked about again |
| Approval.JournalIsNewest | crates/gallium-agent/src/approval.rs:375-444 | The journal is always the newest 128 of the decisions since it was last taken |
| Approval.NobodyToAsk | crates/gallium-agent/src/approval.rs:461-485 | With nobody ever to ask, authorisation is the policy's rule for the tier |
| Approval.AskedIsAnswered | crates/gallium-agent/src/approval.rs:461-513 | A request really asked goes ahead if and only if the answer is a yes; it is recorded as denied exactly on a no, as unanswerable exactly without anybody to ask, not at all when the client went away; only a yes to all of a grantable tier is remembered |
| Approval.NotAskedIsPolicy | crates/gallium-agent/src/approval.rs:384-429 | One that is not asked goes ahead if and only if it reads only, its tier is granted or the policy allows it, is recorded as which, and grants nothing |
| Approval.RulesPerTier | crates/gallium-agent/src/approval.rs:278-285 | Each of the three tiers is asked, and passes unasked, by its own rule of the policy |
| Approval.ApprovalBroker.AuthorizeRequest | crates/gallium-agent/src/approval.rs:384-429 | The method grants, records and answers as specified; read-only requests touch nothing |
| Approval.ApprovalBroker.AskAbout | crates/gallium-agent/src/approval.rs:461-485 | Granted exactly when the answer allows the session for a grantable tier; a client that went away decides nothing; what each answer comes to is stated by `AskedIsAnswered` |
| Approval.ApprovalBroker.Grant | crates/gallium-agent/src/approval.rs:453-459 | The destructive tier is never added |
| Approval.ApprovalBroker.RecordOutcome | crates/gallium-agent/src/approval.rs:431-444 | Appended, the oldest dropped at 128 |
| Approval.ApprovalBroker.TakeJournal | crates/gallium-agent/src/approval.rs:375-380 | Hands over the whole journal and empties it |

## Left out

- LlamaLocal.LlamaLocalProvider.GenerateReusing: proved for a turn no other turn interrupts; interleavings are the machine of `PoolSpec`, of which `OneTurnIsARun` shows the method to be a run. The latch and the ceiling are one atomic value each; a latch set by another turn during a call is part of `Env`.
- LlamaLocal.LlamaLocalProvider.SampleUntilDone: positions are unbounded integers, so the 32-bit casts of the sampling loop are not modelled, nor are its text, streaming deltas, reasoning state, usage counters and timing.
- PoolProofs.ReachableInv: the distinctness of ticks does not cover victims between eviction and drop, which no later choice looks at.
- ContextSize.RetryShape: `next_multiple_of` past the last multiple wraps to 0 as in a release build; a debug build panics there.
- TemplateScan.TagEnd: over characters, as are the theorems about whole templates; they speak of templates on which `tag_end` does not panic, which `TemplateBytes.TagEndOfEncoding` characterises tag by tag. What becomes of a comment in minijinja is modelled only as the two control dashes.
- GemmaValueProofs.EveryCallCanBeWritten: floats, `nan` and `inf` are kept as they are spelled, not as the values they denote, and are not among the values carried.
- GemmaScanProofs.CallsRoundTrip: resolving a call's name against the tools on offer is not modelled.
- GemmaStrayCalls.StraySwallowsNextCall: asks that the lost call's first value is delimited, and that the delimited values of the calls that follow do not end a call themselves; for any other following text `StrayDelimiterFallback` and `LastValueIsRead` give the result in terms of the closing delimiter.
- HarmonyProofs.CallsRoundTrip: JSON is a partial function; its own grammar is not modelled, and neither are `extract_final` and `strip_harmony_tokens`.
- CandleProofs.ConversationIsAligned: how images are loaded and encoded into rows is not modelled; two rows are the same when they are equal; rows left over from a failed request are not modelled.
- SweepProofs.SweepIsAllOrNothing: an input or output error during the final writes, symlinks, the choice of targets by glob and the diff it prints are not modelled; targets are resolved and distinct paths name distinct files.
- Approval.ApprovalBroker.AuthorizeRequest: poisoned locks, the terminal's text and the time stamps of records are not modelled.
- The media path of the llama.cpp backend: it never takes a slot.
- Model loading, downloads, device probing, environment and TOML settings, logging, clocks and throughput.
- Tensor work, tokenizers, the vision tower, and UTF-8 decoding of streamed text.
- `strip_unsupported_jinja`: a regular-expression deletion without the property of the marker rewriter.
- minijinja's rendering, profiles and `protocol.rs`.
- MCP, HTTP and SSE transports, OpenAI wire conversion, the terminal interface and `ToolSearch`: they would add only easy members.
