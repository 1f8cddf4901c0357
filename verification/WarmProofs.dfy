/** That a conversation stays warm: what one turn leaves is what the next one starts from. */
module WarmProofs {
  import opened Common
  import opened SlotSpec
  import opened SlotProofs
  import opened CallProofs
  import opened PoolSpec
  import opened PoolProofs
  import opened ContextSize
  import opened LlamaLocal
  import opened TurnProofs

  /**
   * A turn that finds an idle slot of a fitting size agreeing with the start of its prompt
   * evaluates none of that again, on that slot or on one that shares more.
   */
  lemma WarmTurnReuses(
    cfg: Config, floor: u32, s: System, ceiling: u32, next: Model, prompt: seq<Token>, alloc: Alloc, env: Env,
    i: nat, agreed: nat)
    requires Honest(cfg) && cfg.maxTokens < U32 && Inv(cfg, s) && !env.trimErr && !env.trimRefused
    requires i < |s.pool.idle| && Size(|prompt| % U32, floor, cfg.maxTokens, ceiling) <= s.pool.idle[i].nCtx
    requires var tokens := s.pool.idle[i].tokens;
             0 < agreed <= |tokens| && agreed < |prompt| && tokens[..agreed] == prompt[..agreed]
    ensures var o := OneTurn(cfg, floor, s.pool, s.refuses, ceiling, next, prompt, alloc, env).outcome;
            o.Reply? ==> o.evaluated <= |prompt| - agreed && o.kv == SlotReuse(|prompt| - o.evaluated)
  {
    hide Size, SlotSpec.GenerateInSlot, CommonPrefixLen;
    var needed := Size(|prompt| % U32, floor, cfg.maxTokens, ceiling);
    CommonPrefixAtLeast(s.pool.idle[i].tokens, prompt, agreed);
    WarmSlotIsNeverEvicted(s.pool, prompt, needed, i);
    var slot := Reserve(s.pool, prompt, needed).1.slot;
    var n := Min(Shared(slot, prompt), |prompt| - 1);
    SharedIsCommon(slot, prompt, n);
    HonouredTrimReuses(cfg, next, s.refuses, slot, n, prompt, env);
  }

  lemma SharedIsCommon(slot: Slot, prompt: seq<Token>, n: nat)
    requires n <= Shared(slot, prompt)
    ensures n <= |slot.tokens| && n <= |prompt| && slot.tokens[..n] == prompt[..n]
  {
    var k := Shared(slot, prompt);
    assert slot.tokens[..n] == slot.tokens[..k][..n] && prompt[..n] == prompt[..k][..n];
  }

  /** The slot a turn leaves behind: it is idle, and its record is the prompt and the reply. */
  lemma TurnLeavesItsSlot(
    cfg: Config, floor: u32, s: System, ceiling: u32, next: Model, prompt: seq<Token>, alloc: Alloc, env: Env)
    requires Honest(cfg) && cfg.maxTokens < U32 && Inv(cfg, s)
    ensures var t := OneTurn(cfg, floor, s.pool, s.refuses, ceiling, next, prompt, alloc, env);
            var d := Reserve(s.pool, prompt, Size(|prompt| % U32, floor, cfg.maxTokens, ceiling)).1;
            t.outcome.Reply? && !d.AllBusy? ==>
              && t.pool.idle != []
              && t.pool.idle[|t.pool.idle| - 1].tokens == prompt + t.outcome.decoded
  {
    hide Size, SlotSpec.GenerateInSlot, CommonPrefixLen;
    var needed := Size(|prompt| % U32, floor, cfg.maxTokens, ceiling);
    match Reserve(s.pool, prompt, needed).1
    case Ready(slot) => ReplyIsBounded(cfg, next, s.refuses, slot, prompt, env);
    case Build(_, _, tick) =>
      if Built(needed, alloc).Some? {
        ReplyIsBounded(cfg, next, s.refuses, Slot([], [], Built(needed, alloc).value, tick, None), prompt, env);
      }
    case AllBusy =>
  }

  /**
   * The point of the pool: after a turn that replied on a slot, the next turn of that
   * conversation, whose prompt goes on from the last one and its reply, evaluates only what
   * is new, as long as the slot is large enough for it.
   */
  lemma NextTurnIsWarm(
    cfg: Config, floor: u32, s: System, id: TurnId, ceiling: u32,
    next: Model, prompt: seq<Token>, alloc: Alloc, env: Env,
    next': Model, longer: seq<Token>, alloc': Alloc, env': Env)
    requires Honest(cfg) && cfg.maxTokens < U32 && Inv(cfg, s) && id !in s.turns
    requires !env'.trimErr && !env'.trimRefused
    ensures var d := Reserve(s.pool, prompt, Size(|prompt| % U32, floor, cfg.maxTokens, ceiling)).1;
            var t := OneTurn(cfg, floor, s.pool, s.refuses, ceiling, next, prompt, alloc, env);
            var o := OneTurn(cfg, floor, t.pool, t.refuses, t.ceiling, next', longer, alloc', env').outcome;
            && t.outcome.Reply? && !d.AllBusy? && prompt + t.outcome.decoded < longer && o.Reply? ==>
              && t.pool.idle != []
              && (Size(|longer| % U32, floor, cfg.maxTokens, t.ceiling) <= t.pool.idle[|t.pool.idle| - 1].nCtx ==>
                    o.evaluated <= |longer| - |prompt + t.outcome.decoded|)
  {
    hide Size, OneTurn, Reserve, Inv, TurnSteps;
    var needed := Size(|prompt| % U32, floor, cfg.maxTokens, ceiling);
    var t := OneTurn(cfg, floor, s.pool, s.refuses, ceiling, next, prompt, alloc, env);
    TurnLeavesItsSlot(cfg, floor, s, ceiling, next, prompt, alloc, env);
    if t.outcome.Reply? && !Reserve(s.pool, prompt, needed).1.AllBusy? && prompt + t.outcome.decoded < longer {
      var after := System(t.pool, s.turns, t.refuses);
      OneTurnIsARun(cfg, floor, s, id, ceiling, next, prompt, alloc, env);
      RunKeepsPoolInv(cfg, s, TurnSteps(s.pool, id, needed, next, prompt, alloc, env));
      var i := |t.pool.idle| - 1;
      var agreed := |prompt + t.outcome.decoded|;
      if Size(|longer| % U32, floor, cfg.maxTokens, t.ceiling) <= t.pool.idle[i].nCtx {
        assert t.pool.idle[i].tokens[..agreed] == longer[..agreed];
        ReplyHasPrompt(cfg, floor, s, ceiling, next, prompt, alloc, env);
        WarmTurnReuses(cfg, floor, after, t.ceiling, next', longer, alloc', env', i, agreed);
      }
    }
  }

  /** Nothing is said to an empty prompt. */
  lemma ReplyHasPrompt(
    cfg: Config, floor: u32, s: System, ceiling: u32, next: Model, prompt: seq<Token>, alloc: Alloc, env: Env)
    requires Honest(cfg) && cfg.maxTokens < U32 && Inv(cfg, s)
    ensures OneTurn(cfg, floor, s.pool, s.refuses, ceiling, next, prompt, alloc, env).outcome.Reply? ==> prompt != []
  {
    hide Size, SlotSpec.GenerateInSlot, CommonPrefixLen;
    var needed := Size(|prompt| % U32, floor, cfg.maxTokens, ceiling);
    match Reserve(s.pool, prompt, needed).1
    case Ready(slot) => CallFailsExactly(cfg, next, s.refuses, slot, prompt, env);
    case Build(_, _, tick) =>
      if Built(needed, alloc).Some? {
        CallFailsExactly(cfg, next, s.refuses, Slot([], [], Built(needed, alloc).value, tick, None), prompt, env);
      }
    case AllBusy =>
  }

  /** What a build comes to: the size asked for, or one attempt at a smaller whole number of chunks. */
  lemma BuiltShape(n: u32, alloc: Alloc)
    ensures !alloc.firstFails ==> Built(n, alloc) == Some(n)
    ensures alloc.firstFails ==>
              match Built(n, alloc)
              case None => alloc.retryFails || n <= 4097 || n > 0x1_0000_0000 - 4095
              case Some(m) => !alloc.retryFails && m % 4096 == 0 && 0 < m < n && n - m <= 4097
  {
    RetryShape(n);
  }

  /**
   * A failed allocation is learnt from: after a turn that had to retry, no prompt is asked
   * to be given the size that failed, and the ceiling moves for nothing else.
   */
  lemma TurnLowersCeiling(
    cfg: Config, floor: u32, p: Pool, refuses: bool, ceiling: u32, next: Model, prompt: seq<Token>,
    alloc: Alloc, env: Env)
    requires cfg.maxTokens < U32
    ensures var n := Size(|prompt| % U32, floor, cfg.maxTokens, ceiling);
            var t := OneTurn(cfg, floor, p, refuses, ceiling, next, prompt, alloc, env);
            var retried := !PoolSpec.Reserve(p, prompt, n).1.Ready? && alloc.firstFails && 4097 < n <= 0x1_0000_0000 - 4095;
            && (retried ==> t.ceiling <= ceiling && forall q: u32 :: Size(q, floor, cfg.maxTokens, t.ceiling) < n)
            && (!retried ==> t.ceiling == ceiling)
  {
    hide Size, SlotSpec.GenerateInSlot, SlotSpec.GenerateFresh, Retry, Warmest, Coldest;
    var n := Size(|prompt| % U32, floor, cfg.maxTokens, ceiling);
    SizeHoldsPrompt(|prompt| % U32, floor, cfg.maxTokens, ceiling);
    RetryShape(n);
    FailedSizeComesBack(floor, cfg.maxTokens, ceiling, n);
  }
}
