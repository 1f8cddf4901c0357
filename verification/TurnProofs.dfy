/**
 * One whole turn of the provider, as its method performs it, is a run of the pool's
 * machine: what holds in every reachable state of the machine holds around the method.
 */
module TurnProofs {
  import opened Common
  import opened SlotSpec
  import opened SlotProofs
  import opened PoolSpec
  import opened PoolProofs
  import opened ContextSize
  import opened LlamaLocal

  /** The machine steps a turn takes when nobody interleaves. */
  function TurnSteps(
    p: Pool, id: TurnId, needed: u32, next: Model, prompt: seq<Token>, alloc: Alloc, env: Env): seq<Step>
  {
    [Reserving(id, prompt, needed)]
    + StepsAfter(Reserve(p, prompt, needed).1, id, needed, next, prompt, alloc, env)
  }

  function StepsAfter(
    d: Decision, id: TurnId, needed: u32, next: Model, prompt: seq<Token>, alloc: Alloc, env: Env): seq<Step>
  {
    match d
    case AllBusy => []
    case Ready(_) => [Generating(id, next, prompt, env), Returning(id)]
    case Build(_, victim, _) => BuildSteps(id, victim, needed, next, prompt, alloc, env)
  }

  function BuildSteps(
    id: TurnId, victim: Option<Slot>, needed: u32, next: Model, prompt: seq<Token>, alloc: Alloc, env: Env): seq<Step>
  {
    var built := Built(needed, alloc);
    var tail := if built.None? then [BuildFails(id)]
                else [BuildOk(id, built.value)] + [Generating(id, next, prompt, env), Returning(id)];
    if victim.Some? then [DropVictim(id)] + tail else tail
  }

  /** Running a few more steps is running them from where the first ones ended. */
  lemma {:induction false} RunAppend(cfg: Config, s: System, first: seq<Step>, more: seq<Step>)
    ensures Run(cfg, s, first + more) == Run(cfg, Run(cfg, s, first), more)
    decreases |more|
  {
    if more == [] {
      assert first + more == first;
    } else {
      var init := more[..|more| - 1];
      assert (first + more)[..|first + more| - 1] == first + init;
      RunAppend(cfg, s, first, init);
    }
  }

  /** A run of one step. */
  lemma RunOne(cfg: Config, s: System, step: Step)
    requires Enabled(s, step)
    ensures Run(cfg, s, [step]) == Apply(cfg, s, step)
  {
    assert Run(cfg, s, [step][..0]) == s;
  }

  /** Generating and returning: the turn is gone, its slot is back, nothing else moved. */
  lemma FinishRuns(cfg: Config, s: System, id: TurnId, next: Model, prompt: seq<Token>, env: Env)
    requires id in s.turns && s.turns[id].Holding?
    ensures var c := GenerateInSlot(cfg, next, s.refuses, s.turns[id].slot, prompt, env);
            Run(cfg, s, [Generating(id, next, prompt, env), Returning(id)])
            == System(Returned(s.pool, c.slot), s.turns - {id}, c.refuses)
  {
    var c := GenerateInSlot(cfg, next, s.refuses, s.turns[id].slot, prompt, env);
    var generating, returning := Generating(id, next, prompt, env), Returning(id);
    var mid := Apply(cfg, s, generating);
    assert [generating, returning] == [generating] + [returning];
    RunAppend(cfg, s, [generating], [returning]);
    RunOne(cfg, s, generating);
    RunOne(cfg, mid, returning);
    assert mid.turns - {id} == s.turns - {id};
  }

  /** From a dropped victim on: the build, and the rest of the turn if it succeeds. */
  lemma BuildRuns(
    cfg: Config, s: System, id: TurnId, ceiling: u32, needed: u32,
    next: Model, prompt: seq<Token>, alloc: Alloc, env: Env)
    requires id in s.turns && s.turns[id].Building? && s.turns[id].victim.None?
    ensures var t := TurnBuilding(cfg, s.pool, s.refuses, ceiling, needed, s.turns[id].tick, next, prompt, alloc, env);
            Run(cfg, s, BuildSteps(id, None, needed, next, prompt, alloc, env))
            == System(t.pool, s.turns - {id}, t.refuses)
  {
    var built := Built(needed, alloc);
    if built.None? {
      RunOne(cfg, s, BuildFails(id));
    } else {
      var ok := BuildOk(id, built.value);
      var mid := Apply(cfg, s, ok);
      RunAppend(cfg, s, [ok], [Generating(id, next, prompt, env), Returning(id)]);
      RunOne(cfg, s, ok);
      FinishRuns(cfg, mid, id, next, prompt, env);
      assert mid.turns - {id} == s.turns - {id};
    }
  }

  /** After reserving a build: an evicted slot is dropped first, if there is one. */
  lemma DropAndBuildRuns(
    cfg: Config, s: System, id: TurnId, ceiling: u32, needed: u32,
    next: Model, prompt: seq<Token>, alloc: Alloc, env: Env)
    requires id in s.turns && s.turns[id].Building?
    ensures var t := TurnBuilding(cfg, s.pool, s.refuses, ceiling, needed, s.turns[id].tick, next, prompt, alloc, env);
            Run(cfg, s, BuildSteps(id, s.turns[id].victim, needed, next, prompt, alloc, env))
            == System(t.pool, s.turns - {id}, t.refuses)
  {
    var steps := BuildSteps(id, s.turns[id].victim, needed, next, prompt, alloc, env);
    var tail := BuildSteps(id, None, needed, next, prompt, alloc, env);
    if s.turns[id].victim.None? {
      BuildRuns(cfg, s, id, ceiling, needed, next, prompt, alloc, env);
    } else {
      var drop := DropVictim(id);
      var dropped := Apply(cfg, s, drop);
      assert steps == [drop] + tail;
      RunAppend(cfg, s, [drop], tail);
      RunOne(cfg, s, drop);
      BuildRuns(cfg, dropped, id, ceiling, needed, next, prompt, alloc, env);
      assert dropped.turns - {id} == s.turns - {id};
    }
  }

  /** A whole turn, whatever it met, is a run of the machine that leaves no trace of itself. */
  lemma OneTurnIsARun(
    cfg: Config, floor: u32, s: System, id: TurnId, ceiling: u32,
    next: Model, prompt: seq<Token>, alloc: Alloc, env: Env)
    requires cfg.maxTokens < U32 && id !in s.turns
    ensures var needed := Size(|prompt| % U32, floor, cfg.maxTokens, ceiling);
            var t := OneTurn(cfg, floor, s.pool, s.refuses, ceiling, next, prompt, alloc, env);
            Run(cfg, s, TurnSteps(s.pool, id, needed, next, prompt, alloc, env))
            == System(t.pool, s.turns, t.refuses)
  {
    var needed := Size(|prompt| % U32, floor, cfg.maxTokens, ceiling);
    var reserving := Reserving(id, prompt, needed);
    var d := Reserve(s.pool, prompt, needed).1;
    var mid := Apply(cfg, s, reserving);
    var more := StepsAfter(d, id, needed, next, prompt, alloc, env);
    RunAppend(cfg, s, [reserving], more);
    RunOne(cfg, s, reserving);
    if d.Ready? {
      FinishRuns(cfg, mid, id, next, prompt, env);
      assert mid.turns - {id} == s.turns;
    } else if d.Build? {
      DropAndBuildRuns(cfg, mid, id, ceiling, needed, next, prompt, alloc, env);
      assert mid.turns - {id} == s.turns;
    }
  }

  /**
   * What a turn says, against `generate_fresh` itself: on a slot built for it, or on none,
   * exactly what `generate_fresh` says with the same allocations; on a retained slot
   * exactly what a fresh context of that slot's size says, which fits this prompt. And if
   * the size the prompt asks for was not capped below the prompt and its budget, that is
   * word for word what `generate_fresh` says at the size it asks for.
   */
  ghost predicate SaysWhatFreshWould(
    cfg: Config, d: Decision, needed: u32, said: Outcome,
    next: Model, prompt: seq<Token>, alloc: Alloc, env: Env)
  {
    && (!d.Ready? ==> SameReply(said, FreshOutcome(cfg, next, prompt, needed, alloc, env)))
    && (d.Ready? ==>
          && d.slot.nCtx >= needed
          && SameReply(said, GenerateFresh(next, d.slot.nCtx, cfg.maxTokens, prompt, env))
          && (needed >= |prompt| + cfg.maxTokens && !(env.fault.DecodeFails? && env.fault.at == cfg.maxTokens) ==>
                SameWords(said, GenerateFresh(next, needed, cfg.maxTokens, prompt, env))))
  }

  /**
   * The provider's promise about a turn started in any reachable state: short of a trim
   * that is an outright error it says what `generate_fresh` would, and `busy` and the
   * pool's invariant are as before it.
   */
  lemma TurnSaysWhatFreshWould(
    cfg: Config, floor: u32, capacity: nat, refuses: bool, steps: seq<Step>, id: TurnId, ceiling: u32,
    next: Model, prompt: seq<Token>, alloc: Alloc, env: Env)
    requires Honest(cfg) && cfg.maxTokens < U32 && !env.trimErr
    requires id !in Run(cfg, Initial(capacity, refuses), steps).turns
    ensures var s := Run(cfg, Initial(capacity, refuses), steps);
            var needed := Size(|prompt| % U32, floor, cfg.maxTokens, ceiling);
            var t := OneTurn(cfg, floor, s.pool, s.refuses, ceiling, next, prompt, alloc, env);
            && Inv(cfg, System(t.pool, s.turns, t.refuses))
            && t.pool.busy == s.pool.busy
            && SaysWhatFreshWould(cfg, Reserve(s.pool, prompt, needed).1, needed, t.outcome, next, prompt, alloc, env)
  {
    hide OneTurn, SaysWhatFreshWould, Size, Reserve;
    var s := Run(cfg, Initial(capacity, refuses), steps);
    var needed := Size(|prompt| % U32, floor, cfg.maxTokens, ceiling);
    var more := TurnSteps(s.pool, id, needed, next, prompt, alloc, env);
    ReachableInv(cfg, capacity, refuses, steps);
    RunAppend(cfg, Initial(capacity, refuses), steps, more);
    ReachableInv(cfg, capacity, refuses, steps + more);
    OneTurnIsARun(cfg, floor, s, id, ceiling, next, prompt, alloc, env);
    TurnReply(cfg, floor, s, ceiling, next, prompt, alloc, env);
  }

  lemma TurnReply(
    cfg: Config, floor: u32, s: System, ceiling: u32,
    next: Model, prompt: seq<Token>, alloc: Alloc, env: Env)
    requires Honest(cfg) && cfg.maxTokens < U32 && !env.trimErr && Inv(cfg, s)
    ensures var needed := Size(|prompt| % U32, floor, cfg.maxTokens, ceiling);
            var t := OneTurn(cfg, floor, s.pool, s.refuses, ceiling, next, prompt, alloc, env);
            SaysWhatFreshWould(cfg, Reserve(s.pool, prompt, needed).1, needed, t.outcome, next, prompt, alloc, env)
  {
    hide Size, SlotSpec.GenerateInSlot, SlotSpec.GenerateFresh;
    var needed := Size(|prompt| % U32, floor, cfg.maxTokens, ceiling);
    var built := Built(needed, alloc);
    match Reserve(s.pool, prompt, needed).1
    case Ready(slot) => RetainedReply(cfg, needed, s.refuses, slot, next, prompt, env);
    case Build(_, _, tick) =>
      if built.Some? {
        ReuseRefinesFresh(cfg, next, s.refuses, Slot([], [], built.value, tick, None), prompt, env);
      }
    case AllBusy =>
      SameAsItself(FreshOutcome(cfg, next, prompt, needed, alloc, env));
  }

  lemma SameAsItself(o: Outcome)
    ensures SameReply(o, o)
  {}

  lemma RetainedReply(
    cfg: Config, needed: u32, refuses: bool, slot: Slot, next: Model, prompt: seq<Token>, env: Env)
    requires Honest(cfg) && SlotInv(cfg, slot) && !env.trimErr && slot.nCtx >= needed
    ensures var said := GenerateInSlot(cfg, next, refuses, slot, prompt, env).outcome;
            && SameReply(said, GenerateFresh(next, slot.nCtx, cfg.maxTokens, prompt, env))
            && (needed >= |prompt| + cfg.maxTokens && !(env.fault.DecodeFails? && env.fault.at == cfg.maxTokens) ==>
                  SameWords(said, GenerateFresh(next, needed, cfg.maxTokens, prompt, env)))
  {
    hide SlotSpec.GenerateInSlot, SlotSpec.GenerateFresh;
    ReuseRefinesFresh(cfg, next, refuses, slot, prompt, env);
    if needed >= |prompt| + cfg.maxTokens && !(env.fault.DecodeFails? && env.fault.at == cfg.maxTokens) {
      RoomyFreshSpeaksAlike(next, slot.nCtx, needed, cfg.maxTokens, prompt, env);
    }
  }
}
