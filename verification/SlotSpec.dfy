/**
 * What one call on a retained llama.cpp context does, as a function of the slot, the
 * prompt and everything llama.cpp may answer.
 *
 * `cells` is what the context's memory has really absorbed; the provider can only guess
 * it from `tokens`, its own record. The adversary's answers are in `Env`; the model
 * itself is a function of the cache's contents, so that a cache holding anything but the
 * prompt would show up as a different reply.
 */
module SlotSpec {
  import opened Common

  type Token = int

  /** A serialized sequence state (`state` is what was serialized) and its length. */
  datatype Checkpoint = Checkpoint(state: seq<Token>, len: nat)

  datatype Slot = Slot(
    cells: seq<Token>,
    tokens: seq<Token>,
    nCtx: nat,
    lastUsed: nat,
    checkpoint: Option<Checkpoint>)

  /**
   * What is fixed for a provider. `faithful` is llama.cpp's side of the bargain: whether
   * `state_seq_set` of a blob from `state_seq_get` brings the same memory back.
   */
  datatype Config = Config(arch: Option<string>, faithful: bool, maxTokens: nat)

  predicate ArchCheckpointStateRoundTrips(arch: Option<string>) {
    arch != Some("deepseek4")
  }

  /** The list of architectures that do not round-trip is complete for this one. */
  ghost predicate Honest(cfg: Config) {
    ArchCheckpointStateRoundTrips(cfg.arch) ==> cfg.faithful
  }

  /** One draw: the token, whether it ends the turn, whether the profile stops after it. */
  datatype Sampled = Sampled(token: Token, eog: bool, stops: bool)

  /** The model and sampler: a function of the memory and of where the prompt ended. */
  type Model = (seq<Token>, nat) -> Sampled

  /** What interrupts a sampling loop, and at which draw. */
  datatype Fault = NoFault | Cancelled(at: nat) | DecodeFails(at: nat, junk: seq<Token>)

  /** Every answer llama.cpp may give during one call. */
  datatype Env = Env(
    trimErr: bool,
    trimRefused: bool,
    restoreErr: bool,
    wreck: seq<Token>,        // what a failed or lossy restore leaves behind
    feedErr: bool,
    feedJunk: seq<Token>,     // what a failed prefill leaves past the kept prefix
    latchedMeanwhile: bool,   // another turn saw a refusal while this one was decoding
    snapshotErr: bool,
    fault: Fault)

  // ---- the memory -------------------------------------------------------------------

  /** `clear_kv_cache_seq(0, p0, None)`: only a partial erase can be refused. */
  function Trimmed(p0: nat, env: Env): bool { p0 == 0 || !env.trimRefused }

  function CellsAfterTrim(cells: seq<Token>, p0: nat, env: Env): seq<Token> {
    if Trimmed(p0, env) then cells[..Min(p0, |cells|)] else cells
  }

  function CellsAfterRestore(cfg: Config, state: seq<Token>, env: Env): seq<Token> {
    if !env.restoreErr && cfg.faithful then state else env.wreck
  }

  // ---- sampling ---------------------------------------------------------------------

  /** `cells` afterwards, the tokens decoded, the tokens spoken, and whether it ended well. */
  datatype Sampling = Sampling(cells: seq<Token>, decoded: seq<Token>, spoken: seq<Token>, ok: bool)

  /** The loop of `sample_until_done` from position `nCur` on. */
  function SampleFrom(
    next: Model, cells: seq<Token>, nCur: nat, nPast: nat, nCtx: nat, maxTokens: nat, fault: Fault): Sampling
    requires nPast <= nCur
    decreases nPast + maxTokens + 1 - nCur
  {
    if nCur > nPast + maxTokens then Sampling(cells, [], [], true)
    else if fault == Cancelled(nCur - nPast) then Sampling(cells, [], [], false)
    else
      var s := next(cells, nPast);
      if s.eog then Sampling(cells, [], [], true)
      else if s.stops || nCur >= nCtx then Sampling(cells, [], [s.token], true)
      else if fault.DecodeFails? && fault.at == nCur - nPast then
        Sampling(cells + fault.junk, [], [], false)
      else
        var r := SampleFrom(next, cells + [s.token], nCur + 1, nPast, nCtx, maxTokens, fault);
        r.(decoded := [s.token] + r.decoded, spoken := [s.token] + r.spoken)
  }

  // ---- one call ---------------------------------------------------------------------

  datatype CallError = TrimFailed | EmptyPrompt | DoesNotFit | FeedFailed | Interrupted | BuildFailed

  datatype Provenance =
    | FreshContext
    | SlotReuse(reusedTokens: nat)
    | CheckpointRestore(restoredTokens: nat)
    | CacheReset

  datatype Outcome =
    | Failed(error: CallError)
    | Reply(spoken: seq<Token>, decoded: seq<Token>, evaluated: nat, kv: Provenance)

  /** A call's result; `sampledFrom` is the memory as sampling began, if it did. */
  datatype Call = Call(slot: Slot, refuses: bool, outcome: Outcome, sampledFrom: Option<seq<Token>>)

  /** The slot after the rollback, how much of the prompt it still holds, and how. */
  datatype Rolled = Rolled(slot: Slot, reuse: nat, refuses: bool, kv: Provenance)

  function RestoreUsable(s: Slot, reuse: nat): bool {
    s.checkpoint.Some? && 0 < s.checkpoint.value.len <= reuse
  }

  /** The rollback when the trim was refused: a checkpoint, or clearing everything. */
  function RolledAfterRefusal(cfg: Config, s: Slot, reuse: nat, env: Env): Rolled {
    if RestoreUsable(s, reuse) && !env.restoreErr then
      var c := s.checkpoint.value;
      Rolled(s.(cells := CellsAfterRestore(cfg, c.state, env)), c.len, true, CheckpointRestore(c.len))
    else
      Rolled(s.(cells := [], checkpoint := None), 0, true, CacheReset)
  }

  /** Everything of `generate_in_slot` between the trim and the prefill. */
  function RolledBack(cfg: Config, refuses: bool, s: Slot, prompt: seq<Token>, env: Env): Rolled {
    var want := ReusablePrefix(s.tokens, prompt);
    var r := if Trimmed(want, env)
             then Rolled(s.(cells := CellsAfterTrim(s.cells, want, env)), want, refuses,
                         if want == 0 then FreshContext else SlotReuse(want))
             else RolledAfterRefusal(cfg, s, want, env);
    var kept := r.slot.tokens[..Min(r.reuse, |r.slot.tokens|)];
    var checkpoint := if r.slot.checkpoint.Some? && r.slot.checkpoint.value.len > r.reuse
                      then None else r.slot.checkpoint;
    r.(slot := r.slot.(tokens := kept, checkpoint := checkpoint))
  }

  /** Checkpoint again once this fraction of the prompt is new: an eighth. */
  const CHECKPOINT_REFRESH_FRACTION: nat := 8

  function Sub(a: nat, b: nat): nat { if a < b then 0 else a - b }

  /** `take_checkpoint`, with the memory holding exactly the prompt's `len` tokens. */
  function Checkpointed(cfg: Config, refuses: bool, s: Slot, len: nat, env: Env): Slot {
    if !refuses || !ArchCheckpointStateRoundTrips(cfg.arch) then s
    else if s.checkpoint.Some?
         && Sub(len, s.checkpoint.value.len) * CHECKPOINT_REFRESH_FRACTION < len then s
    else s.(checkpoint := if env.snapshotErr then None else Some(Checkpoint(s.cells, len)))
  }

  /** What `feed` refuses before touching the context. */
  function FeedRefusal(tokens: seq<Token>, start: nat, nCtx: nat): Option<CallError> {
    if tokens == [] then Some(EmptyPrompt)
    else if start + |tokens| > nCtx then Some(DoesNotFit)
    else None
  }

  /** The rest of a call whose prefill went through: snapshot, sample, record. */
  function Served(cfg: Config, next: Model, r: Rolled, prompt: seq<Token>, env: Env): Call {
    var suffix := prompt[Min(r.reuse, |prompt|)..];
    var refuses := r.refuses || env.latchedMeanwhile;
    var fed := r.slot.(cells := r.slot.cells + suffix, tokens := r.slot.tokens + suffix);
    var marked := Checkpointed(cfg, refuses, fed, |prompt|, env);
    var sampling := SampleFrom(next, marked.cells, |prompt|, |prompt|, marked.nCtx, cfg.maxTokens, env.fault);
    var after := marked.(cells := sampling.cells);
    if !sampling.ok then Call(after, refuses, Failed(Interrupted), Some(marked.cells))
    else
      Call(after.(tokens := after.tokens + sampling.decoded), refuses,
           Reply(sampling.spoken, sampling.decoded, |suffix|, r.kv), Some(marked.cells))
  }

  /** `generate_in_slot`. */
  function GenerateInSlot(
    cfg: Config, next: Model, refuses: bool, s: Slot, prompt: seq<Token>, env: Env): Call
  {
    if env.trimErr then Call(s, refuses, Failed(TrimFailed), None)
    else
      var r := RolledBack(cfg, refuses, s, prompt, env);
      var n := Min(r.reuse, |prompt|);
      var suffix := prompt[n..];
      var refusal := FeedRefusal(suffix, n, s.nCtx);
      if refusal.Some? then Call(r.slot, r.refuses, Failed(refusal.value), None)
      else if env.feedErr then
        Call(r.slot.(cells := r.slot.cells + env.feedJunk), r.refuses, Failed(FeedFailed), None)
      else
        Served(cfg, next, r, prompt, env)
  }

  /** `generate_fresh` on a context of `nCtx`: prefill everything, sample, drop it. */
  function GenerateFresh(next: Model, nCtx: nat, maxTokens: nat, prompt: seq<Token>, env: Env): Outcome {
    var refusal := FeedRefusal(prompt, 0, nCtx);
    if refusal.Some? then Failed(refusal.value)
    else if env.feedErr then Failed(FeedFailed)
    else
      var sampling := SampleFrom(next, prompt, |prompt|, |prompt|, nCtx, maxTokens, env.fault);
      if sampling.ok then Reply(sampling.spoken, sampling.decoded, |prompt|, FreshContext)
      else Failed(Interrupted)
  }
}
