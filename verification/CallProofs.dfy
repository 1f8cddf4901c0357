/**
 * What one call does, said without its own steps: which draws make a reply, how much of a
 * prompt is evaluated, when a call fails, and when refusals are latched and snapshots taken.
 */
module CallProofs {
  import opened Common
  import opened SlotSpec
  import opened SlotProofs

  // ---- the draws of a reply ---------------------------------------------------------

  /** The draw made when `decoded` tokens of the reply are in the memory after `cells`. */
  function Draw(next: Model, cells: seq<Token>, decoded: seq<Token>, nPast: nat): Sampled {
    next(cells + decoded, nPast)
  }

  /** Whether a draw goes on to be decoded, at a position that is `n` past the prompt's end. */
  predicate GoesOn(d: Sampled, nPast: nat, n: nat, nCtx: nat) { !d.eog && !d.stops && nPast + n < nCtx }

  /** The token decoded `i`-th is the model's, drawn from all before it, and nothing ended the reply there. */
  predicate DrawnAt(next: Model, cells: seq<Token>, decoded: seq<Token>, nPast: nat, n: nat, nCtx: nat, fault: Fault, i: nat)
    requires i < |decoded|
  {
    var d := Draw(next, cells, decoded[..i], nPast);
    && decoded[i] == d.token && GoesOn(d, nPast, n + i, nCtx)
    && fault != Cancelled(n + i) && !(fault.DecodeFails? && fault.at == n + i)
  }

  /** Every decoded token is. */
  ghost predicate AllDrawn(
    next: Model, cells: seq<Token>, decoded: seq<Token>, nPast: nat, n: nat, nCtx: nat, fault: Fault)
  {
    forall i :: 0 <= i < |decoded| ==> DrawnAt(next, cells, decoded, nPast, n, nCtx, fault, i)
  }

  /**
   * How a reply ends after `decoded`, `n` tokens past the prompt's end. The budget is spent;
   * or the turn is interrupted; or a last draw ends the turn unspoken, or is spoken and
   * stops the turn or finds no room; or decoding it fails.
   */
  predicate Ends(
    next: Model, cells: seq<Token>, r: Sampling, nPast: nat, n: nat, nCtx: nat, maxTokens: nat, fault: Fault)
  {
    var d := Draw(next, cells, r.decoded, nPast);
    if n > maxTokens then r.ok && r.spoken == r.decoded && r.cells == cells + r.decoded
    else if fault == Cancelled(n) then !r.ok && r.cells == cells + r.decoded
    else if d.eog then r.ok && r.spoken == r.decoded && r.cells == cells + r.decoded
    else if d.stops || nPast + n >= nCtx then
      r.ok && r.spoken == r.decoded + [d.token] && r.cells == cells + r.decoded
    else fault.DecodeFails? && fault.at == n && !r.ok && r.cells == cells + r.decoded + fault.junk
  }

  /** What one more decoded token does to the tokens after it. */
  lemma DrawnAfter(
    next: Model, cells: seq<Token>, token: Token, more: seq<Token>, nPast: nat, n: nat, nCtx: nat, fault: Fault)
    requires AllDrawn(next, cells + [token], more, nPast, n + 1, nCtx, fault)
    requires DrawnAt(next, cells, [token] + more, nPast, n, nCtx, fault, 0)
    ensures AllDrawn(next, cells, [token] + more, nPast, n, nCtx, fault)
  {
    var all := [token] + more;
    forall i | 0 <= i < |all| ensures DrawnAt(next, cells, all, nPast, n, nCtx, fault, i) {
      if i > 0 {
        assert DrawnAt(next, cells + [token], more, nPast, n + 1, nCtx, fault, i - 1);
        assert all[..i] == [token] + more[..i - 1];
        assert (cells + [token]) + more[..i - 1] == cells + all[..i];
      }
    }
  }

  /**
   * What a sampling loop says, in terms of the model alone: it decodes the model's own
   * draws, each from everything before it, up to the first that ends the turn, stops it or
   * finds no room, or up to what interrupts it; and it speaks what it decoded and a last
   * token that does not end the turn.
   */
  lemma {:induction false} RepliesAreDraws(
    next: Model, cells: seq<Token>, nCur: nat, nPast: nat, nCtx: nat, maxTokens: nat, fault: Fault)
    requires nPast <= nCur
    ensures var r := SampleFrom(next, cells, nCur, nPast, nCtx, maxTokens, fault);
            && AllDrawn(next, cells, r.decoded, nPast, nCur - nPast, nCtx, fault)
            && Ends(next, cells, r, nPast, nCur - nPast + |r.decoded|, nCtx, maxTokens, fault)
    decreases nPast + maxTokens + 1 - nCur
  {
    hide AllDrawn;
    var r := SampleFrom(next, cells, nCur, nPast, nCtx, maxTokens, fault);
    assert cells + [] == cells;
    if r.decoded == [] {
      NothingDrawn(next, cells, nPast, nCur - nPast, nCtx, fault);
    } else {
      var s := next(cells, nPast);
      var more := SampleFrom(next, cells + [s.token], nCur + 1, nPast, nCtx, maxTokens, fault);
      RepliesAreDraws(next, cells + [s.token], nCur + 1, nPast, nCtx, maxTokens, fault);
      assert r.decoded[..0] == [];
      DrawnAfter(next, cells, s.token, more.decoded, nPast, nCur - nPast, nCtx, fault);
      Reassociate(cells, s.token, more.decoded, r.decoded);
    }
  }

  lemma NothingDrawn(next: Model, cells: seq<Token>, nPast: nat, n: nat, nCtx: nat, fault: Fault)
    ensures AllDrawn(next, cells, [], nPast, n, nCtx, fault)
  {}

  lemma Reassociate(cells: seq<Token>, token: Token, more: seq<Token>, all: seq<Token>)
    requires all == [token] + more
    ensures cells + [token] + more == cells + all
  {}

  // ---- how a call ends --------------------------------------------------------------

  /**
   * A call that gives a reply gives the model's draws on the prompt and nothing else; one
   * that is interrupted was interrupted at a draw it reached.
   */
  lemma CallSaysTheDraws(cfg: Config, next: Model, refuses: bool, s: Slot, prompt: seq<Token>, env: Env)
    requires Honest(cfg) && SlotInv(cfg, s)
    ensures var c := GenerateInSlot(cfg, next, refuses, s, prompt, env);
            && (c.outcome.Reply? ==>
                  && AllDrawn(next, prompt, c.outcome.decoded, |prompt|, 0, s.nCtx, env.fault)
                  && Ends(next, prompt, Sampling(c.slot.cells, c.outcome.decoded, c.outcome.spoken, true),
                          |prompt|, |c.outcome.decoded|, s.nCtx, cfg.maxTokens, env.fault))
            && (c.outcome == Failed(Interrupted) ==>
                  exists r: Sampling ::
                    && !r.ok && AllDrawn(next, prompt, r.decoded, |prompt|, 0, s.nCtx, env.fault)
                    && Ends(next, prompt, r, |prompt|, |r.decoded|, s.nCtx, cfg.maxTokens, env.fault))
  {
    hide SampleFrom, RolledBack, AllDrawn, Ends, Checkpointed;
    if !env.trimErr {
      RollbackIsExact(cfg, refuses, s, prompt, env);
      var r := RolledBack(cfg, refuses, s, prompt, env);
      assert prompt[..r.reuse] + prompt[r.reuse..] == prompt;
      CheckpointKeepsRest(cfg, r.refuses || env.latchedMeanwhile, r.slot.(cells := prompt, tokens := prompt), |prompt|, env);
      RepliesAreDraws(next, prompt, |prompt|, |prompt|, s.nCtx, cfg.maxTokens, env.fault);
    }
  }

  lemma CheckpointKeepsRest(cfg: Config, refuses: bool, s: Slot, len: nat, env: Env)
    ensures var t := Checkpointed(cfg, refuses, s, len, env);
            t.cells == s.cells && t.tokens == s.tokens && t.nCtx == s.nCtx
  {}

  /**
   * When a call fails before it samples, and how: a trim that is an error, an empty prompt,
   * one that does not fit, a prefill that fails; and never otherwise.
   */
  lemma CallFailsExactly(cfg: Config, next: Model, refuses: bool, s: Slot, prompt: seq<Token>, env: Env)
    requires Honest(cfg) && SlotInv(cfg, s)
    ensures var c := GenerateInSlot(cfg, next, refuses, s, prompt, env);
            && (c.outcome == Failed(TrimFailed) <==> env.trimErr)
            && (c.outcome == Failed(EmptyPrompt) <==> !env.trimErr && prompt == [])
            && (c.outcome == Failed(DoesNotFit) <==> !env.trimErr && prompt != [] && |prompt| > s.nCtx)
            && (c.outcome == Failed(FeedFailed) <==> !env.trimErr && 0 < |prompt| <= s.nCtx && env.feedErr)
            && (c.sampledFrom.Some? <==> !env.trimErr && 0 < |prompt| <= s.nCtx && !env.feedErr)
            && (c.sampledFrom.Some? <==> c.outcome.Reply? || c.outcome == Failed(Interrupted))
  {
    hide SampleFrom, RolledBack, Checkpointed;
    if !env.trimErr { RollbackIsExact(cfg, refuses, s, prompt, env); }
  }

  // ---- how much is reused -----------------------------------------------------------

  /**
   * An honoured trim reuses all there is to reuse, checkpoint or not: whatever the record
   * and a longer prompt agree on is not evaluated again, and the reply says how much was.
   */
  lemma HonouredTrimReuses(
    cfg: Config, next: Model, refuses: bool, s: Slot, agreed: nat, prompt: seq<Token>, env: Env)
    requires Honest(cfg) && SlotInv(cfg, s) && !env.trimErr && !env.trimRefused
    requires agreed <= |s.tokens| && agreed < |prompt| && s.tokens[..agreed] == prompt[..agreed]
    ensures var c := GenerateInSlot(cfg, next, refuses, s, prompt, env);
            c.outcome.Reply? ==>
              && 0 < c.outcome.evaluated <= |prompt| - agreed
              && c.outcome.kv == if c.outcome.evaluated == |prompt| then FreshContext
                                 else SlotReuse(|prompt| - c.outcome.evaluated)
  {
    hide SampleFrom, Checkpointed;
    CommonPrefixAtLeast(s.tokens, prompt, agreed);
    RollbackIsExact(cfg, refuses, s, prompt, env);
  }

  /**
   * What a reply says of its cache is true: how much was kept, and whether a trim, a
   * checkpoint or a reset kept it. A restore and a reset are only ever reported of a trim
   * that was refused.
   */
  lemma ProvenanceIsTrue(cfg: Config, next: Model, refuses: bool, s: Slot, prompt: seq<Token>, env: Env)
    requires Honest(cfg) && SlotInv(cfg, s)
    ensures var c := GenerateInSlot(cfg, next, refuses, s, prompt, env);
            c.outcome.Reply? ==>
              match c.outcome.kv
              case FreshContext => c.outcome.evaluated == |prompt|
              case SlotReuse(n) => n > 0 && c.outcome.evaluated == |prompt| - n && !env.trimRefused
              case CheckpointRestore(n) =>
                n > 0 && c.outcome.evaluated == |prompt| - n && env.trimRefused && !env.restoreErr && c.refuses
                && s.checkpoint.Some? && s.checkpoint.value.len == n
              case CacheReset => c.outcome.evaluated == |prompt| && env.trimRefused && c.refuses
  {
    hide SampleFrom, Checkpointed;
    if !env.trimErr { RollbackIsExact(cfg, refuses, s, prompt, env); }
  }

  /**
   * And after a refused trim that would have kept something the reply says which of the two
   * ways was taken: the checkpoint, if the prompt extends it and it could be put back, or
   * a reset.
   */
  lemma RefusalIsTold(cfg: Config, next: Model, refuses: bool, s: Slot, prompt: seq<Token>, env: Env)
    requires Honest(cfg) && SlotInv(cfg, s) && RefusalSeen(s, prompt, env)
    ensures var c := GenerateInSlot(cfg, next, refuses, s, prompt, env);
            var usable := s.checkpoint.Some? && s.checkpoint.value.len < |prompt|
                          && s.tokens[..s.checkpoint.value.len] == prompt[..s.checkpoint.value.len];
            c.outcome.Reply? ==>
              c.outcome.kv == if usable && !env.restoreErr then CheckpointRestore(s.checkpoint.value.len) else CacheReset
  {
    hide SampleFrom, Checkpointed;
    SharesFirst(s.tokens, prompt);
    if s.checkpoint.Some? {
      var n := s.checkpoint.value.len;
      var k := ReusablePrefix(s.tokens, prompt);
      if n <= k {
        assert s.tokens[..n] == s.tokens[..k][..n] && prompt[..n] == prompt[..k][..n];
      } else if n < |prompt| && s.tokens[..n] == prompt[..n] {
        CommonPrefixAtLeast(s.tokens, prompt, n);
      }
    }
  }

  // ---- the latch and the snapshots --------------------------------------------------

  /** A trim that would keep something and is refused. */
  predicate RefusalSeen(s: Slot, prompt: seq<Token>, env: Env) {
    !env.trimErr && env.trimRefused && s.tokens != [] && |prompt| > 1 && s.tokens[0] == prompt[0]
  }

  /**
   * Refusals are latched exactly when they were before, when this call's trim was refused,
   * or when another turn's was while this one was decoding; and for good.
   */
  lemma LatchIsExact(cfg: Config, next: Model, refuses: bool, s: Slot, prompt: seq<Token>, env: Env)
    ensures var c := GenerateInSlot(cfg, next, refuses, s, prompt, env);
            c.refuses <==> refuses || RefusalSeen(s, prompt, env) || (c.sampledFrom.Some? && env.latchedMeanwhile)
  {
    hide SampleFrom, Checkpointed;
    SharesFirst(s.tokens, prompt);
  }

  /** While no refusal is latched no snapshot is taken: a checkpoint afterwards was there before. */
  lemma NoSnapshotUnlessRefused(cfg: Config, next: Model, refuses: bool, s: Slot, prompt: seq<Token>, env: Env)
    ensures var c := GenerateInSlot(cfg, next, refuses, s, prompt, env);
            !c.refuses && c.slot.checkpoint.Some? ==> c.slot.checkpoint == s.checkpoint
  {
    hide SampleFrom, ReusablePrefix;
  }

  /** And one within an eighth of the prompt is spared: it stays, whatever a snapshot would come to. */
  lemma RecentCheckpointIsSpared(
    cfg: Config, next: Model, refuses: bool, s: Slot, agreed: nat, prompt: seq<Token>, env: Env)
    requires Honest(cfg) && SlotInv(cfg, s) && !env.trimErr && (env.trimRefused ==> !env.restoreErr)
    requires s.checkpoint.Some? && s.checkpoint.value.len <= agreed
    requires agreed <= |s.tokens| && agreed < |prompt| && s.tokens[..agreed] == prompt[..agreed]
    requires 8 * (|prompt| - s.checkpoint.value.len) < |prompt|
    ensures GenerateInSlot(cfg, next, refuses, s, prompt, env).slot.checkpoint == s.checkpoint
  {
    hide SampleFrom;
    CommonPrefixAtLeast(s.tokens, prompt, agreed);
    RollbackIsExact(cfg, refuses, s, prompt, env);
  }

  /** A snapshot that fails leaves no checkpoint: what is there afterwards was spared. */
  lemma FailedSnapshotLeavesNone(cfg: Config, next: Model, refuses: bool, s: Slot, prompt: seq<Token>, env: Env)
    requires Honest(cfg) && SlotInv(cfg, s) && env.snapshotErr
    ensures var c := GenerateInSlot(cfg, next, refuses, s, prompt, env);
            c.sampledFrom.Some? && c.refuses && c.slot.checkpoint.Some? ==>
              c.slot.checkpoint == s.checkpoint && 8 * (|prompt| - s.checkpoint.value.len) < |prompt|
  {
    hide SampleFrom, ReusablePrefix;
    if !env.trimErr { RollbackIsExact(cfg, refuses, s, prompt, env); }
  }

  /** The one architecture whose restores are known to be lossy never holds a checkpoint. */
  lemma LossyArchHoldsNone(cfg: Config, s: Slot)
    requires cfg.arch == Some("deepseek4") && SlotInv(cfg, s)
    ensures s.checkpoint.None?
  {}
}
