/**
 * The provider itself: contexts, slots and the pool as the mutable objects they are, each
 * method proved against the function that specifies it.
 *
 * Adversarial answers come in as `Env` (one call's) and `Alloc` (one build's).
 */
module LlamaLocal {
  import opened Common
  import opened SlotSpec
  import opened PoolSpec
  import opened ContextSize

  /** One llama.cpp context: an opaque memory that answers these requests and no others. */
  class LlamaContext {
    var cells: seq<Token>
    const nCtx: nat
    const faithful: bool

    constructor (nCtx: nat, faithful: bool)
      ensures cells == [] && this.nCtx == nCtx && this.faithful == faithful
    {
      cells := [];
      this.nCtx := nCtx;
      this.faithful := faithful;
    }

    /** Erase from position `p0` on; a partial erase may be refused and then changes nothing. */
    method ClearFrom(p0: nat, env: Env) returns (trimmed: Option<bool>)
      modifies this
      ensures trimmed == if env.trimErr then None else Some(Trimmed(p0, env))
      ensures cells == if env.trimErr then old(cells) else CellsAfterTrim(old(cells), p0, env)
    {
      if env.trimErr { return None; }
      if p0 == 0 || !env.trimRefused {
        cells := cells[..Min(p0, |cells|)];
        return Some(true);
      }
      return Some(false);
    }

    /** Erase everything: always honoured. */
    method ClearAll()
      modifies this
      ensures cells == []
    {
      cells := [];
    }

    method StateSeqGet(env: Env) returns (state: Option<seq<Token>>)
      ensures state == if env.snapshotErr then None else Some(cells)
    {
      state := if env.snapshotErr then None else Some(cells);
    }

    /** Write a whole state back; on failure, or where it is lossy, anything may remain. */
    method StateSeqSet(state: seq<Token>, env: Env) returns (ok: bool)
      modifies this
      ensures ok == !env.restoreErr
      ensures cells == if !env.restoreErr && faithful then state else env.wreck
    {
      cells := if !env.restoreErr && faithful then state else env.wreck;
      ok := !env.restoreErr;
    }

    /** Evaluate tokens past the current end; on failure some of them may have gone in. */
    method Decode(tokens: seq<Token>, fails: bool, junk: seq<Token>) returns (ok: bool)
      modifies this
      ensures ok == !fails
      ensures cells == old(cells) + if fails then junk else tokens
    {
      cells := cells + if fails then junk else tokens;
      ok := !fails;
    }
  }

  /** A retained context and the record of what it holds. */
  class RetainedSlot {
    const ctx: LlamaContext
    var tokens: seq<Token>
    var nCtx: nat
    var lastUsed: nat
    var checkpoint: Option<Checkpoint>

    constructor (ctx: LlamaContext)
      ensures this.ctx == ctx && tokens == [] && nCtx == ctx.nCtx && lastUsed == 0 && checkpoint == None
    {
      this.ctx := ctx;
      tokens, nCtx, lastUsed, checkpoint := [], ctx.nCtx, 0, None;
    }

    function View(): Slot
      reads this, ctx
    {
      Slot(ctx.cells, tokens, nCtx, lastUsed, checkpoint)
    }
  }

  /** `feed`: evaluate `tokens` at `start`, or say why not. */
  method Feed(ctx: LlamaContext, tokens: seq<Token>, start: nat, nCtx: nat, env: Env)
    returns (refusal: Option<CallError>)
    modifies ctx
    ensures refusal == if FeedRefusal(tokens, start, nCtx).Some? then FeedRefusal(tokens, start, nCtx)
                       else if env.feedErr then Some(FeedFailed) else None
    ensures ctx.cells == if refusal == None then old(ctx.cells) + tokens
                         else if refusal == Some(FeedFailed) then old(ctx.cells) + env.feedJunk
                         else old(ctx.cells)
  {
    if tokens == [] { return Some(EmptyPrompt); }
    if start + |tokens| > nCtx { return Some(DoesNotFit); }
    var ok := ctx.Decode(tokens, env.feedErr, env.feedJunk);
    return if ok then None else Some(FeedFailed);
  }

  /** What a first and a second attempt to allocate a context come to. */
  datatype Alloc = Alloc(firstFails: bool, retryFails: bool)

  /** What remains of a sampling loop completes what it has done so far. */
  ghost predicate Continues(all: Sampling, done: seq<Token>, rest: Sampling) {
    && all.ok == rest.ok && all.cells == rest.cells
    && (rest.ok ==> all.decoded == done + rest.decoded && all.spoken == done + rest.spoken)
  }

  lemma ContinuesStep(all: Sampling, done: seq<Token>, token: Token, rest: Sampling)
    requires Continues(all, done, rest.(decoded := [token] + rest.decoded, spoken := [token] + rest.spoken))
    ensures Continues(all, done + [token], rest)
  {
    assert done + ([token] + rest.decoded) == (done + [token]) + rest.decoded;
    assert done + ([token] + rest.spoken) == (done + [token]) + rest.spoken;
  }

  /** The provider's fields that a call reads or changes. */
  class LlamaLocalProvider {
    const arch: Option<string>
    const faithful: bool
    const floor: u32
    const maxTokens: u32
    var refuses: bool
    var ceiling: u32

    constructor (arch: Option<string>, faithful: bool, floor: u32, maxTokens: u32, refuses: bool, ceiling: u32)
      ensures this.arch == arch && this.faithful == faithful && this.floor == floor
      ensures this.maxTokens == maxTokens && this.refuses == refuses && this.ceiling == ceiling
    {
      this.arch, this.faithful, this.floor, this.maxTokens := arch, faithful, floor, maxTokens;
      this.refuses, this.ceiling := refuses, ceiling;
    }

    function Cfg(): Config { Config(arch, faithful, maxTokens) }

    /** `note_rollback_refused`: one refusal latches for good. */
    method NoteRollbackRefused()
      modifies this`refuses
      ensures refuses
    {
      refuses := true;
    }

    /** `take_checkpoint`. */
    method TakeCheckpoint(slot: RetainedSlot, len: nat, env: Env)
      modifies slot`checkpoint
      ensures slot.View() == Checkpointed(Cfg(), refuses, old(slot.View()), len, env)
    {
      if !refuses { return; }
      if !ArchCheckpointStateRoundTrips(arch) { return; }
      if slot.checkpoint.Some? {
        var added := Sub(len, slot.checkpoint.value.len);
        if added * CHECKPOINT_REFRESH_FRACTION < len { return; }
      }
      var state := slot.ctx.StateSeqGet(env);
      slot.checkpoint := if state.Some? then Some(Checkpoint(state.value, len)) else None;
    }

    /**
     * `restore_checkpoint`: how much of the prompt the checkpoint brought back, if it is
     * usable and took; otherwise it is dropped.
     */
    method RestoreCheckpoint(slot: RetainedSlot, reuse: nat, env: Env) returns (restored: Option<nat>)
      requires slot.ctx.faithful == faithful
      modifies slot`checkpoint, slot.ctx
      ensures var was := old(slot.View());
              if RestoreUsable(was, reuse) && !env.restoreErr then
                && restored == Some(was.checkpoint.value.len)
                && slot.checkpoint == was.checkpoint
                && slot.ctx.cells == CellsAfterRestore(Cfg(), was.checkpoint.value.state, env)
              else
                restored == None && slot.checkpoint == None
    {
      var checkpoint := slot.checkpoint;
      slot.checkpoint := None;
      if checkpoint.None? { return None; }
      if checkpoint.value.len == 0 || checkpoint.value.len > reuse { return None; }
      var ok := slot.ctx.StateSeqSet(checkpoint.value.state, env);
      if !ok { return None; }
      slot.checkpoint := checkpoint;
      return Some(checkpoint.value.len);
    }

    /** `sample_until_done`: the tokens decoded and spoken, or a failure. */
    method SampleUntilDone(ctx: LlamaContext, next: Model, nPast: nat, fault: Fault)
      returns (ok: bool, decoded: seq<Token>, spoken: seq<Token>)
      modifies ctx
      ensures var r := SampleFrom(next, old(ctx.cells), nPast, nPast, ctx.nCtx, maxTokens, fault);
              && ok == r.ok && ctx.cells == r.cells
              && (ok ==> decoded == r.decoded && spoken == r.spoken)
    {
      ghost var all := SampleFrom(next, ctx.cells, nPast, nPast, ctx.nCtx, maxTokens, fault);
      var nCur := nPast;
      var budget := nPast + maxTokens;
      ok, decoded, spoken := true, [], [];
      while nCur <= budget
        invariant nPast <= nCur && ok && decoded == spoken
        invariant Continues(all, decoded, SampleFrom(next, ctx.cells, nCur, nPast, ctx.nCtx, maxTokens, fault))
        decreases budget + 1 - nCur
      {
        ghost var before := ctx.cells;
        if fault == Cancelled(nCur - nPast) { return false, [], []; }
        var s := next(ctx.cells, nPast);
        if s.eog { break; }
        spoken := spoken + [s.token];
        if s.stops { break; }
        if nCur >= ctx.nCtx { break; }
        var fails := fault.DecodeFails? && fault.at == nCur - nPast;
        var decodedOk := ctx.Decode([s.token], fails, if fault.DecodeFails? then fault.junk else []);
        if !decodedOk { return false, [], []; }
        ContinuesStep(all, decoded, s.token, SampleFrom(next, ctx.cells, nCur + 1, nPast, ctx.nCtx, maxTokens, fault));
        decoded := decoded + [s.token];
        nCur := nCur + 1;
      }
    }

    /** The first half of `generate_in_slot`: bring the slot back to a prefix of the prompt. */
    method RollBack(slot: RetainedSlot, prompt: seq<Token>, env: Env)
      returns (rolled: Option<(nat, Provenance)>)
      requires slot.ctx.faithful == faithful
      modifies this`refuses, slot, slot.ctx
      ensures slot.nCtx == old(slot.nCtx)
      ensures if env.trimErr then
                rolled == None && slot.View() == old(slot.View()) && refuses == old(refuses)
              else
                var r := RolledBack(Cfg(), old(refuses), old(slot.View()), prompt, env);
                rolled == Some((r.reuse, r.kv)) && slot.View() == r.slot && refuses == r.refuses
    {
      var want := ReusablePrefix(slot.tokens, prompt);
      var answer := slot.ctx.ClearFrom(want, env);
      if answer.None? { return None; }
      var trimmed := answer.value;
      var reuse, kv := want, if want == 0 then FreshContext else SlotReuse(want);
      if !trimmed {
        var restored := RestoreCheckpoint(slot, want, env);
        if restored.Some? {
          reuse, kv := restored.value, CheckpointRestore(restored.value);
        } else {
          slot.ctx.ClearAll();
          reuse, kv := 0, CacheReset;
        }
        NoteRollbackRefused();
      }
      slot.tokens := slot.tokens[..Min(reuse, |slot.tokens|)];
      if slot.checkpoint.Some? && slot.checkpoint.value.len > reuse {
        slot.checkpoint := None;
      }
      return Some((reuse, kv));
    }

    /** `generate_in_slot`. */
    method GenerateInSlot(slot: RetainedSlot, next: Model, prompt: seq<Token>, env: Env) returns (r: Outcome)
      requires slot.ctx.faithful == faithful && slot.nCtx == slot.ctx.nCtx
      modifies this`refuses, slot, slot.ctx
      ensures var c := SlotSpec.GenerateInSlot(Cfg(), next, old(refuses), old(slot.View()), prompt, env);
              slot.View() == c.slot && refuses == c.refuses && r == c.outcome
      ensures slot.nCtx == old(slot.nCtx)
    {
      hide RolledBack, Served;
      var rolled := RollBack(slot, prompt, env);
      if rolled.None? { return Failed(TrimFailed); }
      var (reuse, kv) := rolled.value;
      ghost var spec := RolledBack(Cfg(), old(refuses), old(slot.View()), prompt, env);
      var n := Min(reuse, |prompt|);
      var suffix := prompt[n..];
      var refusal := Feed(slot.ctx, suffix, n, slot.nCtx, env);
      if refusal.Some? { return Failed(refusal.value); }
      r := Serve(slot, next, prompt, suffix, kv, env, spec);
    }

    /** The second half: record the prefill, snapshot, sample, record what was decoded. */
    method Serve(
      slot: RetainedSlot, next: Model, prompt: seq<Token>, suffix: seq<Token>, kv: Provenance, env: Env,
      ghost rolled: Rolled) returns (r: Outcome)
      requires slot.nCtx == slot.ctx.nCtx
      requires suffix == prompt[Min(rolled.reuse, |prompt|)..]
      requires slot.View() == rolled.slot.(cells := rolled.slot.cells + suffix)
      requires refuses == rolled.refuses && kv == rolled.kv
      modifies this`refuses, slot, slot.ctx
      ensures var c := Served(Cfg(), next, rolled, prompt, env);
              slot.View() == c.slot && refuses == c.refuses && r == c.outcome
      ensures slot.nCtx == old(slot.nCtx)
    {
      slot.tokens := slot.tokens + suffix;
      if env.latchedMeanwhile { refuses := true; }
      TakeCheckpoint(slot, |prompt|, env);
      var ok, decoded, spoken := SampleUntilDone(slot.ctx, next, |prompt|, env.fault);
      if !ok { return Failed(Interrupted); }
      slot.tokens := slot.tokens + decoded;
      return Reply(spoken, decoded, |suffix|, kv);
    }

    /** `build_context`: the size asked for, else once more at the chunk beneath it. */
    method BuildContext(n: u32, alloc: Alloc) returns (ctx: Option<LlamaContext>)
      modifies this`ceiling
      ensures ceiling == CeilingAfterBuild(old(ceiling), n, alloc)
      ensures ctx.Some? <==> Built(n, alloc).Some?
      ensures ctx.Some? ==> fresh(ctx.value) && ctx.value.cells == [] && ctx.value.nCtx == Built(n, alloc).value
                            && ctx.value.faithful == faithful
    {
      if !alloc.firstFails {
        var c := new LlamaContext(n, faithful);
        return Some(c);
      }
      var retry := Retry(n);
      if retry == 0 || retry >= n { return None; }
      ceiling := Min32(ceiling, retry);
      if alloc.retryFails { return None; }
      var c := new LlamaContext(retry, faithful);
      return Some(c);
    }

    /** `generate_fresh`: a throwaway context for the whole prompt. */
    method GenerateFresh(next: Model, prompt: seq<Token>, alloc: Alloc, env: Env) returns (r: Outcome)
      modifies this`ceiling
      ensures var needed := Size(|prompt| % U32, floor, maxTokens, old(ceiling));
              && r == FreshOutcome(Cfg(), next, prompt, needed, alloc, env)
              && ceiling == CeilingAfterBuild(old(ceiling), needed, alloc)
    {
      var needed := Size(|prompt| % U32, floor, maxTokens, ceiling);
      var built := BuildContext(needed, alloc);
      if built.None? { return Failed(BuildFailed); }
      var ctx := built.value;
      var refusal := Feed(ctx, prompt, 0, ctx.nCtx, env);
      if refusal.Some? { return Failed(refusal.value); }
      assert ctx.cells == prompt;
      var ok, decoded, spoken := SampleUntilDone(ctx, next, |prompt|, env.fault);
      if !ok { return Failed(Interrupted); }
      return Reply(spoken, decoded, |prompt|, FreshContext);
    }

    /** `generate_reusing`: one turn from reservation to return, no other turn interleaving. */
    method GenerateReusing(pool: SlotPool, next: Model, prompt: seq<Token>, alloc: Alloc, env: Env)
      returns (r: Outcome)
      requires pool.Valid(faithful)
      modifies this, pool, pool.idle, set s | s in pool.idle :: s.ctx
      ensures pool.Valid(faithful)
      ensures var t := OneTurn(Cfg(), floor, old(pool.View()), old(refuses), old(ceiling), next, prompt, alloc, env);
              pool.View() == t.pool && refuses == t.refuses && ceiling == t.ceiling && r == t.outcome
    {
      hide RestOfTurn, PoolSpec.Reserve;
      var needed := Size(|prompt| % U32, floor, maxTokens, ceiling);
      var reservation := pool.Reserve(prompt, needed, faithful);
      ghost var d := PoolSpec.Reserve(old(pool.View()), prompt, needed).1;
      r := GenerateReserved(pool, reservation, needed, next, prompt, alloc, env, d);
    }

    /** The turn from its reservation on. */
    method GenerateReserved(
      pool: SlotPool, reservation: Reservation, needed: u32, next: Model, prompt: seq<Token>, alloc: Alloc, env: Env,
      ghost d: Decision) returns (r: Outcome)
      requires pool.Valid(faithful) && reservation.Means(d)
      requires needed == Size(|prompt| % U32, floor, maxTokens, ceiling)
      requires reservation.ReadySlot? ==> pool.Detached(reservation.slot, faithful)
      modifies this, pool, if reservation.ReadySlot? then {reservation.slot, reservation.slot.ctx} else {}
      ensures pool.Valid(faithful)
      ensures var t := RestOfTurn(Cfg(), old(pool.View()), old(refuses), old(ceiling), d, needed, next, prompt, alloc, env);
              pool.View() == t.pool && refuses == t.refuses && ceiling == t.ceiling && r == t.outcome
    {
      hide TurnBuilding, FreshOutcome, SlotSpec.GenerateInSlot, Size;
      match reservation {
        case ReadySlot(slot) =>
          r := GenerateAndReturn(pool, slot, next, prompt, env);
        case BuildSlot(n, victim, tick) =>
          // The victim is out of the pool and goes no further: nothing refers to it.
          r := BuildAndGenerate(pool, needed, tick, next, prompt, alloc, env);
        case NoSlot =>
          ghost var before := pool.View();
          r := GenerateFresh(next, prompt, alloc, env);
          assert pool.View() == before;
      }
    }

    /** A slot built for this turn, or the reserved capacity given back. */
    method BuildAndGenerate(
      pool: SlotPool, needed: u32, tick: nat, next: Model, prompt: seq<Token>, alloc: Alloc, env: Env)
      returns (r: Outcome)
      requires pool.Valid(faithful)
      modifies this, pool
      ensures pool.Valid(faithful)
      ensures var t := TurnBuilding(Cfg(), old(pool.View()), old(refuses), old(ceiling), needed, tick, next, prompt, alloc, env);
              pool.View() == t.pool && refuses == t.refuses && ceiling == t.ceiling && r == t.outcome
    {
      hide SlotSpec.GenerateInSlot, Built, CeilingAfterBuild;
      ghost var before := pool.View();
      var built := BuildContext(needed, alloc);
      if built.None? {
        pool.GiveBack();
        return Failed(BuildFailed);
      }
      var slot := new RetainedSlot(built.value);
      slot.lastUsed := tick;
      assert pool.View() == before;
      r := GenerateAndReturn(pool, slot, next, prompt, env);
    }

    /** A checked-out slot's call, and the slot's return whichever way it went. */
    method GenerateAndReturn(pool: SlotPool, slot: RetainedSlot, next: Model, prompt: seq<Token>, env: Env)
      returns (r: Outcome)
      requires pool.Valid(faithful) && pool.Detached(slot, faithful)
      modifies this`refuses, pool, slot, slot.ctx
      ensures pool.Valid(faithful)
      ensures var c := SlotSpec.GenerateInSlot(Cfg(), next, old(refuses), old(slot.View()), prompt, env);
              && pool.View() == Returned(old(pool.View()), c.slot) && refuses == c.refuses && r == c.outcome
    {
      hide SlotSpec.GenerateInSlot;
      ghost var before := pool.View();
      r := GenerateInSlot(slot, next, prompt, env);
      assert pool.View() == before;
      pool.Return(slot, faithful);
    }
  }

  /** The size a build ends up with, if either attempt succeeds. */
  function Built(n: u32, alloc: Alloc): Option<u32> {
    if !alloc.firstFails then Some(n)
    else if !RetryAllowed(n) || alloc.retryFails then None
    else Some(Retry(n))
  }

  function CeilingAfterBuild(ceiling: u32, n: u32, alloc: Alloc): u32 {
    if alloc.firstFails then Lowered(ceiling, n) else ceiling
  }

  function FreshOutcome(cfg: Config, next: Model, prompt: seq<Token>, needed: u32, alloc: Alloc, env: Env): Outcome {
    var built := Built(needed, alloc);
    if built.None? then Failed(BuildFailed)
    else SlotSpec.GenerateFresh(next, built.value, cfg.maxTokens, prompt, env)
  }

  /** The pool and provider after one whole turn, and what it said. */
  datatype TurnResult = TurnResult(pool: Pool, refuses: bool, ceiling: u32, outcome: Outcome)

  function OneTurn(
    cfg: Config, floor: u32, p: Pool, refuses: bool, ceiling: u32,
    next: Model, prompt: seq<Token>, alloc: Alloc, env: Env): TurnResult
    requires cfg.maxTokens < U32
  {
    var needed := Size(|prompt| % U32, floor, cfg.maxTokens, ceiling);
    var (reserved, d) := PoolSpec.Reserve(p, prompt, needed);
    RestOfTurn(cfg, reserved, refuses, ceiling, d, needed, next, prompt, alloc, env)
  }

  /** The rest of a turn whose reservation was answered with `d`. */
  function RestOfTurn(
    cfg: Config, reserved: Pool, refuses: bool, ceiling: u32, d: Decision, needed: u32,
    next: Model, prompt: seq<Token>, alloc: Alloc, env: Env): TurnResult
  {
    match d
    case AllBusy =>
      TurnResult(reserved, refuses, CeilingAfterBuild(ceiling, needed, alloc),
                 FreshOutcome(cfg, next, prompt, needed, alloc, env))
    case Ready(slot) => TurnOn(cfg, reserved, refuses, ceiling, slot, next, prompt, env)
    case Build(n, _, tick) => TurnBuilding(cfg, reserved, refuses, ceiling, needed, tick, next, prompt, alloc, env)
  }

  function TurnOn(
    cfg: Config, reserved: Pool, refuses: bool, ceiling: u32, slot: Slot,
    next: Model, prompt: seq<Token>, env: Env): TurnResult
  {
    var c := SlotSpec.GenerateInSlot(cfg, next, refuses, slot, prompt, env);
    TurnResult(Returned(reserved, c.slot), c.refuses, ceiling, c.outcome)
  }

  function TurnBuilding(
    cfg: Config, reserved: Pool, refuses: bool, ceiling: u32, needed: u32, tick: nat,
    next: Model, prompt: seq<Token>, alloc: Alloc, env: Env): TurnResult
  {
    var built := Built(needed, alloc);
    var lowered := CeilingAfterBuild(ceiling, needed, alloc);
    if built.None? then TurnResult(Released(reserved), refuses, lowered, Failed(BuildFailed))
    else TurnOn(cfg, reserved, refuses, lowered, Slot([], [], built.value, tick, None), next, prompt, env)
  }

  /** The pool's answer, in terms of the slot objects themselves. */
  datatype Reservation =
    | ReadySlot(slot: RetainedSlot)
    | BuildSlot(nCtx: nat, victim: Option<RetainedSlot>, tick: nat)
    | NoSlot
  {
    /** What it stands for. */
    ghost predicate Means(d: Decision)
      reads if ReadySlot? then {slot, slot.ctx}
            else if BuildSlot? && victim.Some? then {victim.value, victim.value.ctx} else {}
    {
      match d
      case Ready(v) => ReadySlot? && slot.View() == v
      case Build(n, v, t) =>
        && BuildSlot? && nCtx == n && tick == t && (victim.Some? <==> v.Some?)
        && (v.Some? ==> victim.value.View() == v.value)
      case AllBusy => NoSlot?
    }
  }

  function Views(slots: seq<RetainedSlot>): (v: seq<Slot>)
    reads slots, set s | s in slots :: s.ctx
    ensures |v| == |slots|
    ensures forall i :: 0 <= i < |slots| ==> v[i] == slots[i].View()
  {
    seq(|slots|, i requires 0 <= i < |slots| reads slots, set s | s in slots :: s.ctx => slots[i].View())
  }

  class SlotPool {
    var idle: seq<RetainedSlot>
    var busy: nat
    const capacity: nat
    var tick: nat

    constructor (capacity: nat)
      ensures idle == [] && busy == 0 && this.capacity == capacity && tick == 0
    {
      idle, busy, tick := [], 0, 0;
      this.capacity := capacity;
    }

    /** Slots are separate objects over separate contexts of this provider. */
    ghost predicate Valid(faithful: bool)
      reads this, idle
    {
      && (forall i, j :: 0 <= i < j < |idle| ==> idle[i] != idle[j] && idle[i].ctx != idle[j].ctx)
      && (forall s :: s in idle ==> s.ctx.faithful == faithful && s.nCtx == s.ctx.nCtx)
    }

    function View(): Pool
      reads this, idle, set s | s in idle :: s.ctx
    {
      Pool(Views(idle), busy, capacity, tick)
    }

    /** `reserve`. */
    method Reserve(prompt: seq<Token>, needed: nat, ghost faithful: bool) returns (r: Reservation)
      requires Valid(faithful)
      modifies this, idle
      ensures Valid(faithful) && (forall s :: s in idle ==> s in old(idle))
      ensures r.ReadySlot? ==> Detached(r.slot, faithful) && r.slot in old(idle)
      ensures var (p, d) := PoolSpec.Reserve(old(View()), prompt, needed);
              View() == p && r.Means(d)
    {
      hide PoolSpec.Choose, CheckedOut, Without;
      var choice := Choose(prompt, needed);
      match choice {
        case TakeWarm(i) =>
          var slot := TakeWarm(i, faithful);
          return ReadySlot(slot);
        case Grow =>
          Grow();
          return BuildSlot(needed, None, tick);
        case Evict(i) =>
          var victim := TakeOut(i, faithful);
          return BuildSlot(needed, Some(victim), tick);
        case Full =>
          tick := tick + 1;
          return NoSlot;
      }
    }

    /** What `reserve` decides before it changes anything but the tick. */
    method Choose(prompt: seq<Token>, needed: nat) returns (choice: Choice)
      ensures choice == PoolSpec.Choose(View(), prompt, needed)
    {
      var w := FindWarmest(prompt, needed);
      if w.Some? && (Shares(idle[w.value], prompt) > 0 || |idle| + busy >= capacity) {
        return Choice.TakeWarm(w.value);
      }
      if |idle| + busy < capacity { return Choice.Grow; }
      var c := FindColdest();
      return if c.None? then Full else Evict(c.value);
    }

    /** Reserve the capacity for a slot to be built. */
    method Grow()
      modifies this`busy, this`tick
      ensures View() == old(View()).(busy := old(busy) + 1, tick := old(tick) + 1)
    {
      busy, tick := busy + 1, tick + 1;
    }

    /** `busy -= 1; idle.push(slot)`. */
    method Return(slot: RetainedSlot, ghost faithful: bool)
      requires Valid(faithful) && Detached(slot, faithful)
      modifies this
      ensures View() == Returned(old(View()), slot.View()) && Valid(faithful)
    {
      ghost var views := Views(idle);
      busy := Sub(busy, 1);
      idle := idle + [slot];
      assert Views(idle) == views + [slot.View()];
    }

    /** `busy -= 1`, after a build that failed. */
    method GiveBack()
      modifies this`busy
      ensures View() == Released(old(View()))
    {
      busy := Sub(busy, 1);
    }

    /** A slot this pool does not hold, and whose parts it does not share. */
    ghost predicate Detached(slot: RetainedSlot, faithful: bool)
      reads this, idle, slot
    {
      && slot !in idle && (forall s :: s in idle ==> s.ctx != slot.ctx)
      && slot.ctx.faithful == faithful && slot.nCtx == slot.ctx.nCtx
    }

    /** `idle.remove(i)`, checked out under a new tick. */
    method TakeOut(i: nat, ghost faithful: bool) returns (slot: RetainedSlot)
      requires Valid(faithful) && i < |idle|
      modifies this
      ensures slot == old(idle)[i] && idle == Without(old(idle), i) && tick == old(tick) + 1
      ensures forall s :: s in idle ==> s in old(idle)
      ensures View() == CheckedOut(old(View()).(tick := old(tick) + 1), i) && slot.View() == old(View()).idle[i]
      ensures Valid(faithful) && Detached(slot, faithful)
    {
      slot := idle[i];
      ghost var views := Views(idle);
      idle := idle[..i] + idle[i + 1..];
      busy, tick := busy + 1, tick + 1;
      assert forall k :: 0 <= k < |idle| ==> idle[k] == old(idle)[if k < i then k else k + 1];
      assert Views(idle) == Without(views, i);
    }

    /** The same, marked as used at that tick. */
    method TakeWarm(i: nat, ghost faithful: bool) returns (slot: RetainedSlot)
      requires Valid(faithful) && i < |idle|
      modifies this, idle
      ensures slot == old(idle)[i] && (forall s :: s in idle ==> s in old(idle))
      ensures View() == CheckedOut(old(View()).(tick := old(tick) + 1), i)
      ensures slot.View() == old(View()).idle[i].(lastUsed := old(tick) + 1)
      ensures Valid(faithful) && Detached(slot, faithful)
    {
      slot := TakeOut(i, faithful);
      ghost var views := Views(idle);
      slot.lastUsed := tick;
      assert Views(idle) == views;
    }

    method FindWarmest(prompt: seq<Token>, needed: nat) returns (w: Option<nat>)
      ensures w == Warmest(Views(idle), prompt, needed)
    {
      hide Shared, CommonPrefixLen;
      ghost var views := Views(idle);
      w := None;
      for i := 0 to |idle|
        invariant w == Warmest(views[..i], prompt, needed)
      {
        WarmestStep(views, i, prompt, needed);
        if idle[i].nCtx >= needed
           && (w.None? || Shares(idle[w.value], prompt) <= Shares(idle[i], prompt)) {
          w := Some(i);
        }
      }
      assert views[..|idle|] == views;
    }

    function Shares(slot: RetainedSlot, prompt: seq<Token>): (n: nat)
      reads slot, slot.ctx
      ensures n == Shared(slot.View(), prompt)
    {
      CommonPrefixLen(slot.tokens, prompt)
    }

    method FindColdest() returns (c: Option<nat>)
      ensures c == Coldest(Views(idle))
    {
      ghost var views := Views(idle);
      c := None;
      for i := 0 to |idle|
        invariant c == Coldest(views[..i])
      {
        ColdestStep(views, i);
        if c.None? || idle[i].lastUsed < idle[c.value].lastUsed { c := Some(i); }
      }
      assert views[..|idle|] == views;
    }
  }
}
