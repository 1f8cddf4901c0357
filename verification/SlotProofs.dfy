/** What the record of a retained context is worth: the invariant and what follows from it. */
module SlotProofs {
  import opened Common
  import opened SlotSpec

  /**
   * The record is a prefix of the memory and fits the context; a checkpoint encodes
   * exactly a non-empty prefix of the record, and exists only where it can be trusted.
   */
  ghost predicate SlotInv(cfg: Config, s: Slot) {
    && s.tokens <= s.cells
    && |s.tokens| <= s.nCtx
    && (s.checkpoint.Some? ==>
          && ArchCheckpointStateRoundTrips(cfg.arch)
          && 0 < s.checkpoint.value.len <= |s.tokens|
          && s.checkpoint.value.state == s.tokens[..s.checkpoint.value.len])
  }

  /** After the rollback the memory and the record are both exactly the kept prefix. */
  lemma {:induction false} RollbackIsExact(cfg: Config, refuses: bool, s: Slot, prompt: seq<Token>, env: Env)
    requires Honest(cfg) && SlotInv(cfg, s)
    ensures var r := RolledBack(cfg, refuses, s, prompt, env);
            && r.reuse <= |prompt| && (prompt != [] ==> r.reuse < |prompt|)
            && r.slot.cells == r.slot.tokens == prompt[..r.reuse]
            && r.slot.nCtx == s.nCtx && r.slot.lastUsed == s.lastUsed
            && SlotInv(cfg, r.slot) && (refuses ==> r.refuses)
  {
    var want := ReusablePrefix(s.tokens, prompt);
    assert s.cells[..want] == s.tokens[..want];
    if !Trimmed(want, env) && RestoreUsable(s, want) {
      var len := s.checkpoint.value.len;
      assert s.tokens[..len] == s.tokens[..want][..len] == prompt[..want][..len] == prompt[..len];
    }
  }

  /** What a sampling loop adds to the memory, and how much of it there can be. */
  lemma {:induction false} SamplingBound(
    next: Model, cells: seq<Token>, nCur: nat, nPast: nat, nCtx: nat, maxTokens: nat, fault: Fault)
    requires nPast <= nCur <= nPast + maxTokens + 1
    ensures var r := SampleFrom(next, cells, nCur, nPast, nCtx, maxTokens, fault);
            && (r.ok ==> r.cells == cells + r.decoded)
            && cells <= r.cells
            && |r.decoded| <= nPast + maxTokens + 1 - nCur
            && (r.decoded != [] ==> nCur + |r.decoded| <= nCtx)
            && (r.ok ==> r.spoken == r.decoded || (|r.spoken| == |r.decoded| + 1 && r.decoded <= r.spoken))
    decreases nPast + maxTokens + 1 - nCur
  {
    if nCur <= nPast + maxTokens && fault != Cancelled(nCur - nPast) {
      var s := next(cells, nPast);
      if !s.eog && !s.stops && nCur < nCtx && !(fault.DecodeFails? && fault.at == nCur - nPast) {
        var more := cells + [s.token];
        SamplingBound(next, more, nCur + 1, nPast, nCtx, maxTokens, fault);
        assert cells <= more;
        var r := SampleFrom(next, more, nCur + 1, nPast, nCtx, maxTokens, fault);
        assert more + r.decoded == cells + ([s.token] + r.decoded);
      }
    }
  }

  /** Snapshot, sampling and recording keep the record true and start from the prompt. */
  lemma ServedKeepsInv(cfg: Config, next: Model, r: Rolled, prompt: seq<Token>, env: Env)
    requires r.reuse <= |prompt| <= r.slot.nCtx && prompt != []
    requires SlotInv(cfg, r.slot)
    requires r.slot.cells == r.slot.tokens == prompt[..r.reuse]
    ensures var c := Served(cfg, next, r, prompt, env);
            && SlotInv(cfg, c.slot)
            && c.slot.nCtx == r.slot.nCtx && c.slot.lastUsed == r.slot.lastUsed
            && (r.refuses ==> c.refuses)
            && c.sampledFrom == Some(prompt)
  {
    hide SampleFrom;
    assert prompt[..r.reuse] + prompt[r.reuse..] == prompt;
    var fed := r.slot.(cells := prompt, tokens := prompt);
    var marked := Checkpointed(cfg, r.refuses || env.latchedMeanwhile, fed, |prompt|, env);
    assert SlotInv(cfg, marked) by {
      assert prompt[..|prompt|] == prompt;
      if r.slot.checkpoint.Some? {
        var len := r.slot.checkpoint.value.len;
        assert prompt[..r.reuse][..len] == prompt[..len];
      }
    }
    SamplingBound(next, prompt, |prompt|, |prompt|, r.slot.nCtx, cfg.maxTokens, env.fault);
    var after := SampleFrom(next, prompt, |prompt|, |prompt|, r.slot.nCtx, cfg.maxTokens, env.fault);
    CheckpointSurvivesGrowth(cfg, marked, after.cells, prompt);
    if after.ok {
      CheckpointSurvivesGrowth(cfg, marked, after.cells, prompt + after.decoded);
    }
  }

  /** A longer memory with a longer record keeps the invariant. */
  lemma CheckpointSurvivesGrowth(cfg: Config, s: Slot, cells: seq<Token>, tokens: seq<Token>)
    requires SlotInv(cfg, s) && s.tokens <= tokens <= cells && |tokens| <= s.nCtx
    ensures SlotInv(cfg, s.(cells := cells, tokens := tokens))
  {
    if s.checkpoint.Some? {
      var len := s.checkpoint.value.len;
      assert tokens[..len] == s.tokens[..len];
    }
  }

  /** Whatever llama.cpp answers, a call leaves the slot's record true. */
  lemma CallKeepsInv(cfg: Config, next: Model, refuses: bool, s: Slot, prompt: seq<Token>, env: Env)
    requires Honest(cfg) && SlotInv(cfg, s)
    ensures var c := GenerateInSlot(cfg, next, refuses, s, prompt, env);
            && SlotInv(cfg, c.slot)
            && c.slot.nCtx == s.nCtx && c.slot.lastUsed == s.lastUsed
            && (refuses ==> c.refuses)
            && (c.sampledFrom.Some? ==> c.sampledFrom.value == prompt)
  {
    hide Served, RolledBack;
    if !env.trimErr {
      RollbackIsExact(cfg, refuses, s, prompt, env);
      var r := RolledBack(cfg, refuses, s, prompt, env);
      if FeedRefusal(prompt[r.reuse..], r.reuse, s.nCtx).None? && !env.feedErr {
        ServedKeepsInv(cfg, next, r, prompt, env);
      }
    }
  }

  /** What two outcomes say to the user: the same reply, or both no reply. */
  ghost predicate SameReply(a: Outcome, b: Outcome) {
    match (a, b)
    case (Reply(s, d, _, _), Reply(s', d', _, _)) => s == s' && d == d'
    case (Failed(e), Failed(e')) => e == e'
    case _ => false
  }

  /**
   * Reuse refines the fresh path: on any slot whose record is true, a call whose trim is
   * not an outright error says exactly what a fresh context of the same size would say,
   * error for error, and it never evaluates more of the prompt.
   */
  lemma ReuseRefinesFresh(cfg: Config, next: Model, refuses: bool, s: Slot, prompt: seq<Token>, env: Env)
    requires Honest(cfg) && SlotInv(cfg, s) && !env.trimErr
    ensures var reused := GenerateInSlot(cfg, next, refuses, s, prompt, env).outcome;
            var cold := GenerateFresh(next, s.nCtx, cfg.maxTokens, prompt, env);
            && SameReply(reused, cold)
            && (reused.Reply? ==> 0 < reused.evaluated <= cold.evaluated)
  {
    hide SampleFrom, RolledBack;
    RollbackIsExact(cfg, refuses, s, prompt, env);
    var r := RolledBack(cfg, refuses, s, prompt, env);
    assert prompt[..r.reuse] + prompt[r.reuse..] == prompt;
  }

  /**
   * Once refusals are latched, a call that reaches sampling with snapshots working leaves
   * a checkpoint within an eighth of its prompt.
   */
  lemma {:induction false} CheckpointIsRecent(cfg: Config, next: Model, refuses: bool, s: Slot, prompt: seq<Token>, env: Env)
    requires Honest(cfg) && SlotInv(cfg, s)
    requires cfg.arch != Some("deepseek4") && !env.snapshotErr
    ensures var c := GenerateInSlot(cfg, next, refuses, s, prompt, env);
            c.sampledFrom.Some? && c.refuses ==>
              && c.slot.checkpoint.Some?
              && prompt <= c.slot.tokens
              && c.slot.checkpoint.value.len <= |prompt|
              && 8 * (|prompt| - c.slot.checkpoint.value.len) < |prompt|
  {
    hide SampleFrom, RolledBack;
    if !env.trimErr {
      RollbackIsExact(cfg, refuses, s, prompt, env);
      var r := RolledBack(cfg, refuses, s, prompt, env);
      assert prompt[..r.reuse] + prompt[r.reuse..] == prompt;
      SamplingBound(next, prompt, |prompt|, |prompt|, s.nCtx, cfg.maxTokens, env.fault);
    }
  }

  /**
   * The price of a refused trim: on a slot with such a checkpoint, a longer prompt that
   * agrees with the first `agreed` recorded tokens evaluates, beyond what is new, less
   * than an eighth of them, whether its trim is honoured or refused.
   */
  lemma {:induction false} RefusedTrimIsCheap(
    cfg: Config, next: Model, refuses: bool, s: Slot, agreed: nat, prompt: seq<Token>, env: Env)
    requires Honest(cfg) && SlotInv(cfg, s)
    requires agreed <= |s.tokens| && agreed < |prompt| && s.tokens[..agreed] == prompt[..agreed]
    requires s.checkpoint.Some? && s.checkpoint.value.len <= agreed
    requires 8 * (agreed - s.checkpoint.value.len) < agreed
    requires !env.restoreErr
    ensures var c := GenerateInSlot(cfg, next, refuses, s, prompt, env);
            c.outcome.Reply? ==> 8 * (c.outcome.evaluated - (|prompt| - agreed)) < agreed
  {
    hide SampleFrom;
    CommonPrefixAtLeast(s.tokens, prompt, agreed);
    if !env.trimErr {
      RollbackIsExact(cfg, refuses, s, prompt, env);
    }
  }

  /**
   * The two together, call after call: once refusals are latched, a call that reached
   * sampling bounds what the next one pays for a refused trim. A longer prompt that begins
   * with the first one evaluates, beyond what is new, less than an eighth of it.
   */
  lemma {:induction false} NextCallIsCheap(
    cfg: Config, next: Model, refuses: bool, s: Slot, prompt: seq<Token>, env: Env,
    longer: seq<Token>, env': Env)
    requires Honest(cfg) && SlotInv(cfg, s)
    requires cfg.arch != Some("deepseek4") && !env.snapshotErr && !env'.restoreErr
    requires prompt < longer
    ensures var first := GenerateInSlot(cfg, next, refuses, s, prompt, env);
            var second := GenerateInSlot(cfg, next, first.refuses, first.slot, longer, env');
            first.sampledFrom.Some? && first.refuses && second.outcome.Reply? ==>
              8 * (second.outcome.evaluated - (|longer| - |prompt|)) < |prompt|
  {
    hide GenerateInSlot, SlotInv;
    CheckpointIsRecent(cfg, next, refuses, s, prompt, env);
    CallKeepsInv(cfg, next, refuses, s, prompt, env);
    var first := GenerateInSlot(cfg, next, refuses, s, prompt, env);
    if first.sampledFrom.Some? && first.refuses {
      assert first.slot.tokens[..|prompt|] == prompt == longer[..|prompt|];
      RefusedTrimIsCheap(cfg, next, first.refuses, first.slot, |prompt|, longer, env');
    }
  }

  /**
   * How much one reply may decode: never past the context, at most one token over the
   * budget, and the record afterwards is the prompt and exactly those tokens.
   */
  lemma ReplyIsBounded(cfg: Config, next: Model, refuses: bool, s: Slot, prompt: seq<Token>, env: Env)
    requires Honest(cfg) && SlotInv(cfg, s)
    ensures var c := GenerateInSlot(cfg, next, refuses, s, prompt, env);
            c.outcome.Reply? ==>
              && c.slot.tokens == c.slot.cells == prompt + c.outcome.decoded
              && |prompt| + |c.outcome.decoded| <= s.nCtx
              && |c.outcome.decoded| <= cfg.maxTokens + 1
  {
    hide SampleFrom, RolledBack;
    if !env.trimErr {
      RollbackIsExact(cfg, refuses, s, prompt, env);
      var r := RolledBack(cfg, refuses, s, prompt, env);
      assert prompt[..r.reuse] + prompt[r.reuse..] == prompt;
      SamplingBound(next, prompt, |prompt|, |prompt|, s.nCtx, cfg.maxTokens, env.fault);
    }
  }

  /**
   * The budget is overrun by one: a model that never ends its turn decodes
   * `maxTokens + 1` tokens wherever the context has room for them, and otherwise fills
   * the context to its last position.
   */
  lemma {:induction false} EndlessModelDecodes(
    next: Model, cells: seq<Token>, nCur: nat, nPast: nat, nCtx: nat, maxTokens: nat)
    requires nPast <= nCur <= nPast + maxTokens + 1 && nCur <= nCtx
    requires forall c, n :: !next(c, n).eog && !next(c, n).stops
    ensures var r := SampleFrom(next, cells, nCur, nPast, nCtx, maxTokens, NoFault);
            r.ok && |r.decoded| == Min(nPast + maxTokens + 1 - nCur, nCtx - nCur)
    decreases nPast + maxTokens + 1 - nCur
  {
    if nCur <= nPast + maxTokens && nCur < nCtx {
      var s := next(cells, nPast);
      EndlessModelDecodes(next, cells + [s.token], nCur + 1, nPast, nCtx, maxTokens);
    }
  }

  /**
   * When the budget is kept, whatever the model says and whatever interrupts it: exactly
   * when the context has no room for the token that overruns it.
   */
  lemma {:induction false} BudgetKeptExactly(cells: seq<Token>, nPast: nat, nCtx: nat, maxTokens: nat)
    ensures (forall next: Model, fault: Fault ::
               |SampleFrom(next, cells, nPast, nPast, nCtx, maxTokens, fault).decoded| <= maxTokens)
            <==> nCtx <= nPast + maxTokens
  {
    hide SampleFrom;
    if nCtx <= nPast + maxTokens {
      forall next: Model, fault: Fault
        ensures |SampleFrom(next, cells, nPast, nPast, nCtx, maxTokens, fault).decoded| <= maxTokens
      {
        SamplingBound(next, cells, nPast, nPast, nCtx, maxTokens, fault);
      }
    } else {
      var endless: Model := (c: seq<Token>, n: nat) => Sampled(0, false, false);
      EndlessModelDecodes(endless, cells, nPast, nPast, nCtx, maxTokens);
      assert |SampleFrom(endless, cells, nPast, nPast, nCtx, maxTokens, NoFault).decoded| > maxTokens;
    }
  }

  /**
   * A context that holds the prompt and its budget is as good as any larger one: only the
   * one token over the budget is decoded in one and not in the other, and it is spoken in
   * both. A decode that fails at just that token is felt in the larger one alone.
   */
  lemma {:induction false} RoomyContextsSpeakAlike(
    next: Model, cells: seq<Token>, nCur: nat, nPast: nat, n: nat, m: nat, maxTokens: nat, fault: Fault)
    requires nPast <= nCur && nPast + maxTokens <= n && nPast + maxTokens <= m
    requires !(fault.DecodeFails? && fault.at == maxTokens)
    ensures var a := SampleFrom(next, cells, nCur, nPast, n, maxTokens, fault);
            var b := SampleFrom(next, cells, nCur, nPast, m, maxTokens, fault);
            a.ok == b.ok && a.spoken == b.spoken
    decreases nPast + maxTokens + 1 - nCur
  {
    if nCur <= nPast + maxTokens {
      var s := next(cells, nPast);
      RoomyContextsSpeakAlike(next, cells + [s.token], nCur + 1, nPast, n, m, maxTokens, fault);
    }
  }

  /** What two outcomes say aloud, whatever they leave behind. */
  ghost predicate SameWords(a: Outcome, b: Outcome) {
    match (a, b)
    case (Reply(s, _, _, _), Reply(s', _, _, _)) => s == s'
    case (Failed(e), Failed(e')) => e == e'
    case _ => false
  }

  /** So a fresh context that has the room says what one of any larger size would. */
  lemma RoomyFreshSpeaksAlike(next: Model, n: nat, m: nat, maxTokens: nat, prompt: seq<Token>, env: Env)
    requires |prompt| + maxTokens <= n && |prompt| + maxTokens <= m
    requires !(env.fault.DecodeFails? && env.fault.at == maxTokens)
    ensures SameWords(GenerateFresh(next, n, maxTokens, prompt, env), GenerateFresh(next, m, maxTokens, prompt, env))
  {
    hide SampleFrom;
    RoomyContextsSpeakAlike(next, prompt, |prompt|, |prompt|, n, m, maxTokens, env.fault);
  }

  /**
   * The list of architectures is the only guard: where a restore is lossy and the list does
   * not say so, a slot whose record is true can answer differently from a fresh context.
   */
  lemma LossyRestoreCanSpeakWrong()
    ensures exists cfg: Config, next: Model, s: Slot, prompt: seq<Token>, env: Env ::
              && !Honest(cfg) && SlotInv(cfg, s) && !env.trimErr
              && !SameReply(GenerateInSlot(cfg, next, true, s, prompt, env).outcome,
                            GenerateFresh(next, s.nCtx, cfg.maxTokens, prompt, env))
  {
    hide SampleFrom, ReusablePrefix;
    var cfg := Config(Some("unlisted"), false, 4);
    var next: Model := (cells: seq<Token>, n: nat) => Sampled(if cells == [] then 0 else cells[0], false, true);
    var s := Slot([1, 2, 3], [1, 2, 3], 10, 1, Some(Checkpoint([1], 1)));
    var prompt := [1, 5];
    var env := Env(false, true, false, [9], false, [], false, false, NoFault);
    SharesOne();
    StopsAtOnce(next, [9, 5], 2, 10, 4);
    StopsAtOnce(next, prompt, 2, 10, 4);
    var r := RolledBack(cfg, true, s, prompt, env);
    assert r.reuse == 1 && r.slot.cells == [9];
    assert prompt[1..] == [5] && [9] + [5] == [9, 5];
    assert GenerateInSlot(cfg, next, true, s, prompt, env).outcome.spoken == [9];
    assert GenerateFresh(next, s.nCtx, cfg.maxTokens, prompt, env).spoken == [1];
  }

  lemma SharesOne()
    ensures ReusablePrefix([1, 2, 3], [1, 5]) == 1
  {}

  /** A model that stops after its first token says it and decodes nothing. */
  lemma StopsAtOnce(next: Model, cells: seq<Token>, n: nat, nCtx: nat, maxTokens: nat)
    requires !next(cells, n).eog && next(cells, n).stops
    ensures SampleFrom(next, cells, n, n, nCtx, maxTokens, NoFault)
            == Sampling(cells, [], [next(cells, n).token], true)
  {}
}
