/** Safety of the slot pool in every reachable state, and what `reserve` chooses. */
module PoolProofs {
  import opened Common
  import opened SlotSpec
  import opened SlotProofs
  import opened PoolSpec

  /** The tick a turn's slot carries, or will carry once it is built. */
  function Stamp(t: Turn): nat {
    match t
    case Building(_, _, tick) => tick
    case Holding(slot) => slot.lastUsed
  }

  /** Whether a turn's retained context exists right now. */
  predicate Retains(t: Turn) { t.Holding? || t.victim.Some? }

  /** How many retained contexts exist: idle ones, checked-out ones, undropped victims. */
  function Retained(s: System): nat {
    |s.pool.idle| + |Retaining(s)|
  }

  function Retaining(s: System): set<TurnId> {
    set id | id in s.turns && Retains(s.turns[id])
  }

  ghost predicate IdleDistinct(idle: seq<Slot>) {
    forall i, j :: 0 <= i < j < |idle| ==> idle[i].lastUsed != idle[j].lastUsed
  }

  ghost predicate TurnsDistinct(turns: map<TurnId, Turn>) {
    forall a, b :: a in turns && b in turns && a != b ==> Stamp(turns[a]) != Stamp(turns[b])
  }

  ghost predicate Apart(idle: seq<Slot>, turns: map<TurnId, Turn>) {
    forall i, a :: 0 <= i < |idle| && a in turns ==> idle[i].lastUsed != Stamp(turns[a])
  }

  ghost predicate DistinctStamps(s: System) {
    IdleDistinct(s.pool.idle) && TurnsDistinct(s.turns) && Apart(s.pool.idle, s.turns)
  }

  ghost predicate StampsPast(s: System) {
    && (forall i :: 0 <= i < |s.pool.idle| ==> s.pool.idle[i].lastUsed <= s.pool.tick)
    && (forall a :: a in s.turns ==> Stamp(s.turns[a]) <= s.pool.tick)
  }

  ghost predicate Counted(s: System) {
    && s.pool.busy == |s.turns|
    && |s.pool.idle| + s.pool.busy <= s.pool.capacity
  }

  ghost predicate TrueRecords(cfg: Config, s: System) {
    && (forall i :: 0 <= i < |s.pool.idle| ==> SlotInv(cfg, s.pool.idle[i]))
    && (forall a :: a in s.turns && s.turns[a].Holding? ==> SlotInv(cfg, s.turns[a].slot))
  }

  ghost predicate Inv(cfg: Config, s: System) {
    Counted(s) && TrueRecords(cfg, s) && DistinctStamps(s) && StampsPast(s)
  }

  lemma WithoutDistinct(idle: seq<Slot>, i: nat)
    requires IdleDistinct(idle) && i < |idle|
    ensures IdleDistinct(Without(idle, i))
  {
    forall a, b | 0 <= a < b < |idle| - 1
      ensures Without(idle, i)[a].lastUsed != Without(idle, i)[b].lastUsed
    {
      var a', b' := if a < i then a else a + 1, if b < i then b else b + 1;
      assert idle[a'].lastUsed != idle[b'].lastUsed;
    }
  }

  lemma WithoutApart(s: System, i: nat, id: TurnId, turn: Turn)
    requires Apart(s.pool.idle, s.turns) && StampsPast(s) && i < |s.pool.idle|
    requires Stamp(turn) == s.pool.tick + 1
    ensures Apart(Without(s.pool.idle, i), s.turns[id := turn])
  {
    var idle, turns := Without(s.pool.idle, i), s.turns[id := turn];
    forall k, a | 0 <= k < |idle| && a in turns
      ensures idle[k].lastUsed != Stamp(turns[a])
    {
      var k' := if k < i then k else k + 1;
      assert idle[k] == s.pool.idle[k'];
    }
  }

  /** A turn that takes the `i`-th idle slot out of the pool, under a new tick. */
  lemma TakingKeepsInv(cfg: Config, s: System, i: nat, id: TurnId, turn: Turn)
    requires Inv(cfg, s) && id !in s.turns && i < |s.pool.idle|
    requires Stamp(turn) == s.pool.tick + 1
    requires turn.Holding? ==> SlotInv(cfg, turn.slot)
    ensures Inv(cfg, s.(pool := s.pool.(idle := Without(s.pool.idle, i), busy := s.pool.busy + 1,
                                        tick := s.pool.tick + 1), turns := s.turns[id := turn]))
  {
    var t := s.(pool := s.pool.(idle := Without(s.pool.idle, i), busy := s.pool.busy + 1,
                                tick := s.pool.tick + 1), turns := s.turns[id := turn]);
    assert |t.turns.Keys| == |s.turns.Keys + {id}| == |s.turns.Keys| + 1;
    WithoutDistinct(s.pool.idle, i);
    assert forall k :: 0 <= k < |t.pool.idle| ==> t.pool.idle[k] in s.pool.idle;
    assert Apart(t.pool.idle, t.turns) by { WithoutApart(s, i, id, turn); }
    assert forall k :: 0 <= k < |t.pool.idle| ==> SlotInv(cfg, t.pool.idle[k]);
  }

  /** A turn that enters without a slot of its own yet, under a new tick. */
  lemma EnteringKeepsInv(cfg: Config, s: System, id: TurnId, turn: Turn)
    requires Inv(cfg, s) && id !in s.turns && |s.pool.idle| + s.pool.busy < s.pool.capacity
    requires turn.Building? && turn.tick == s.pool.tick + 1
    ensures Inv(cfg, s.(pool := s.pool.(busy := s.pool.busy + 1, tick := s.pool.tick + 1),
                        turns := s.turns[id := turn]))
  {
    var t := s.turns[id := turn];
    assert |t.Keys| == |s.turns.Keys + {id}| == |s.turns.Keys| + 1;
  }

  lemma {:induction false} ReservingKeepsInv(cfg: Config, s: System, id: TurnId, prompt: seq<Token>, needed: nat)
    requires Inv(cfg, s) && id !in s.turns
    ensures Inv(cfg, Apply(cfg, s, Reserving(id, prompt, needed)))
  {
    var (pool, d) := Reserve(s.pool, prompt, needed);
    match d
    case Ready(slot) =>
      TakingKeepsInv(cfg, s, Warmest(s.pool.idle, prompt, needed).value, id, Holding(slot));
    case Build(n, None, tick) => EnteringKeepsInv(cfg, s, id, Building(n, None, tick));
    case Build(n, victim, tick) =>
      TakingKeepsInv(cfg, s, Coldest(s.pool.idle).value, id, Building(n, victim, tick));
    case AllBusy =>
  }

  lemma BuildingKeepsInv(cfg: Config, s: System, step: Step)
    requires Inv(cfg, s) && Enabled(s, step)
    requires step.DropVictim? || step.BuildOk?
    ensures Inv(cfg, Apply(cfg, s, step))
  {
    var t := Apply(cfg, s, step);
    assert t.turns.Keys == s.turns.Keys;
    assert |t.turns.Keys| == |s.turns.Keys|;
  }

  lemma LeavingKeepsInv(cfg: Config, s: System, step: Step)
    requires Inv(cfg, s) && Enabled(s, step)
    requires step.BuildFails? || step.Returning?
    ensures Inv(cfg, Apply(cfg, s, step))
  {
    var t := Apply(cfg, s, step);
    assert t.turns.Keys == s.turns.Keys - {step.id};
    assert |t.turns.Keys| == |s.turns.Keys| - 1;
  }

  lemma GeneratingKeepsInv(cfg: Config, s: System, step: Step)
    requires Honest(cfg) && Inv(cfg, s) && Enabled(s, step) && step.Generating?
    ensures Inv(cfg, Apply(cfg, s, step))
  {
    var t := Apply(cfg, s, step);
    CallKeepsInv(cfg, step.next, s.refuses, s.turns[step.id].slot, step.prompt, step.env);
    assert t.turns.Keys == s.turns.Keys;
    assert |t.turns.Keys| == |s.turns.Keys|;
  }

  lemma StepKeepsInv(cfg: Config, s: System, step: Step)
    requires Honest(cfg) && Inv(cfg, s) && Enabled(s, step)
    ensures Inv(cfg, Apply(cfg, s, step))
  {
    hide Inv, Apply;
    match step
    case Reserving(id, prompt, needed) => ReservingKeepsInv(cfg, s, id, prompt, needed);
    case Generating(_, _, _, _) => GeneratingKeepsInv(cfg, s, step);
    case DropVictim(_) => BuildingKeepsInv(cfg, s, step);
    case BuildOk(_, _) => BuildingKeepsInv(cfg, s, step);
    case BuildFails(_) => LeavingKeepsInv(cfg, s, step);
    case Returning(_) => LeavingKeepsInv(cfg, s, step);
  }

  lemma CapacityStays(cfg: Config, s: System, step: Step)
    requires Enabled(s, step)
    ensures Apply(cfg, s, step).pool.capacity == s.pool.capacity
  {
    hide GenerateInSlot, Choose;
  }

  /** Steps from any state that keeps the pool's invariant keep it, and the capacity. */
  lemma {:induction false} RunKeepsPoolInv(cfg: Config, s: System, steps: seq<Step>)
    requires Honest(cfg) && Inv(cfg, s)
    ensures Inv(cfg, Run(cfg, s, steps)) && Run(cfg, s, steps).pool.capacity == s.pool.capacity
    decreases |steps|
  {
    hide Inv, Apply, Enabled;
    if steps != [] {
      var before, step := Run(cfg, s, steps[..|steps| - 1]), steps[|steps| - 1];
      RunKeepsPoolInv(cfg, s, steps[..|steps| - 1]);
      if Enabled(before, step) {
        StepKeepsInv(cfg, before, step);
        CapacityStays(cfg, before, step);
      }
    }
  }

  lemma InitialInv(cfg: Config, capacity: nat, refuses: bool)
    ensures Inv(cfg, Initial(capacity, refuses))
  {}

  /** Every interleaving of every number of turns keeps the pool's invariant. */
  lemma ReachableInv(cfg: Config, capacity: nat, refuses: bool, steps: seq<Step>)
    requires Honest(cfg)
    ensures var s := Run(cfg, Initial(capacity, refuses), steps);
            Inv(cfg, s) && s.pool.capacity == capacity
  {
    hide Inv, Run;
    InitialInv(cfg, capacity, refuses);
    RunKeepsPoolInv(cfg, Initial(capacity, refuses), steps);
  }

  lemma {:induction false} SubsetCard<T>(a: set<T>, b: set<T>)
    requires a <= b
    ensures |a| <= |b|
  {
    assert b == a + (b - a);
  }

  /**
   * Pool safety: in every reachable state `busy` counts the turns in flight, so it is 0
   * when there are none and every release finds it positive; and no more retained
   * contexts exist than the pool may hold, undropped victims included.
   */
  lemma {:induction false} PoolSafety(cfg: Config, capacity: nat, refuses: bool, steps: seq<Step>)
    requires Honest(cfg)
    ensures var s := Run(cfg, Initial(capacity, refuses), steps);
            && s.pool.busy == |s.turns|
            && (s.turns == map[] ==> s.pool.busy == 0)
            && (forall id :: id in s.turns ==> s.pool.busy > 0)
            && |s.pool.idle| + s.pool.busy <= capacity
            && Retained(s) <= capacity
  {
    var s := Run(cfg, Initial(capacity, refuses), steps);
    ReachableInv(cfg, capacity, refuses, steps);
    SubsetCard(Retaining(s), s.turns.Keys);
    assert |s.turns.Keys| == |s.turns|;
    forall id | id in s.turns ensures s.pool.busy > 0 {
      SubsetCard({id}, s.turns.Keys);
    }
  }

  /**
   * Safety over whole runs: whatever turns interleave and whatever llama.cpp answered
   * them, a turn that generates on its slot says what a fresh context would have said.
   */
  lemma EveryTurnRefinesFresh(
    cfg: Config, capacity: nat, refuses: bool, steps: seq<Step>,
    id: TurnId, next: Model, prompt: seq<Token>, env: Env)
    requires Honest(cfg) && !env.trimErr
    requires var s := Run(cfg, Initial(capacity, refuses), steps);
             id in s.turns && s.turns[id].Holding?
    ensures var s := Run(cfg, Initial(capacity, refuses), steps);
            var slot := s.turns[id].slot;
            && SameReply(GenerateInSlot(cfg, next, s.refuses, slot, prompt, env).outcome,
                         GenerateFresh(next, slot.nCtx, cfg.maxTokens, prompt, env))
            && |slot.tokens| <= slot.nCtx
            && (!ArchCheckpointStateRoundTrips(cfg.arch) ==> slot.checkpoint.None?)
  {
    var s := Run(cfg, Initial(capacity, refuses), steps);
    ReachableInv(cfg, capacity, refuses, steps);
    ReuseRefinesFresh(cfg, next, s.refuses, s.turns[id].slot, prompt, env);
  }

  /**
   * What a reservation in a reachable state chooses: the warmest fitting slot; an
   * eviction only when the pool is full and nothing idle fits, and then the one least
   * recently reserved slot; and a refusal exactly when every slot is mid-generation.
   */
  lemma ReserveChooses(
    cfg: Config, capacity: nat, refuses: bool, steps: seq<Step>, prompt: seq<Token>, needed: nat)
    requires Honest(cfg)
    ensures var p := Run(cfg, Initial(capacity, refuses), steps).pool;
            var d := Reserve(p, prompt, needed).1;
            && (d.Ready? ==>
                  && d.slot.nCtx >= needed && d.slot.lastUsed == p.tick + 1
                  && (exists i :: 0 <= i < |p.idle| && p.idle[i].(lastUsed := p.tick + 1) == d.slot)
                  && (forall s :: s in p.idle && s.nCtx >= needed ==> Shared(s, prompt) <= Shared(d.slot, prompt))
                  && (Shared(d.slot, prompt) == 0 ==> |p.idle| + p.busy == capacity))
            && (d.Build? && d.victim.Some? ==>
                  && |p.idle| + p.busy == capacity
                  && d.victim.value in p.idle
                  && (forall s :: s in p.idle ==> s.nCtx < needed)
                  && (forall s :: s in p.idle && s != d.victim.value ==> d.victim.value.lastUsed < s.lastUsed))
            && (d.AllBusy? <==> p.idle == [] && p.busy == capacity)
  {
    ReachableInv(cfg, capacity, refuses, steps);
    hide Run, TrueRecords, StampsPast, TurnsDistinct, Apart, Shared, Reserve, IdleDistinct;
    var p := Run(cfg, Initial(capacity, refuses), steps).pool;
    var d := Reserve(p, prompt, needed).1;
    if d.Ready? { ReadyIsWarmest(p, prompt, needed); }
    if d.Build? && d.victim.Some? { VictimIsColdest(p, prompt, needed); }
    BusyWhenFull(p, prompt, needed);
  }

  lemma ReadyIsWarmest(p: Pool, prompt: seq<Token>, needed: nat)
    requires |p.idle| + p.busy <= p.capacity && Reserve(p, prompt, needed).1.Ready?
    ensures var slot := Reserve(p, prompt, needed).1.slot;
            && slot.nCtx >= needed && slot.lastUsed == p.tick + 1
            && (exists i :: 0 <= i < |p.idle| && p.idle[i].(lastUsed := p.tick + 1) == slot)
            && (forall s :: s in p.idle && s.nCtx >= needed ==> Shared(s, prompt) <= Shared(slot, prompt))
            && (Shared(slot, prompt) == 0 ==> |p.idle| + p.busy == p.capacity)
  {
    hide CommonPrefixLen, Without;
    var w := Warmest(p.idle, prompt, needed).value;
    assert p.idle[w].(lastUsed := p.tick + 1) == Reserve(p, prompt, needed).1.slot;
  }

  lemma VictimIsColdest(p: Pool, prompt: seq<Token>, needed: nat)
    requires |p.idle| + p.busy <= p.capacity && IdleDistinct(p.idle)
    requires Reserve(p, prompt, needed).1.Build? && Reserve(p, prompt, needed).1.victim.Some?
    ensures var victim := Reserve(p, prompt, needed).1.victim.value;
            && |p.idle| + p.busy == p.capacity && victim in p.idle
            && (forall s :: s in p.idle ==> s.nCtx < needed)
            && (forall s :: s in p.idle && s != victim ==> victim.lastUsed < s.lastUsed)
  {
    hide Shared, Without;
  }

  lemma BusyWhenFull(p: Pool, prompt: seq<Token>, needed: nat)
    requires |p.idle| + p.busy <= p.capacity
    ensures Reserve(p, prompt, needed).1.AllBusy? <==> p.idle == [] && p.busy == p.capacity
  {
    hide Shared, Without;
  }

  /** A warm conversation keeps its slot: a fitting idle slot that shares is never passed over. */
  lemma {:induction false} WarmSlotIsNeverEvicted(p: Pool, prompt: seq<Token>, needed: nat, i: nat)
    requires i < |p.idle| && p.idle[i].nCtx >= needed && Shared(p.idle[i], prompt) > 0
    ensures Reserve(p, prompt, needed).1.Ready?
    ensures Shared(Reserve(p, prompt, needed).1.slot, prompt) >= Shared(p.idle[i], prompt)
  {
    var w := Warmest(p.idle, prompt, needed);
    assert w.Some?;
  }

  /** A reservation takes one slot out of the pool, or a place in it, or nothing. */
  lemma ReserveTakesOne(p: Pool, prompt: seq<Token>, needed: nat)
    requires |p.idle| + p.busy <= p.capacity
    ensures var (q, d) := Reserve(p, prompt, needed);
            && q.capacity == p.capacity && q.tick == p.tick + 1
            && (d.Ready? ==>
                  && q.busy == p.busy + 1
                  && exists i :: 0 <= i < |p.idle| && d.slot == p.idle[i].(lastUsed := q.tick) && q.idle == Without(p.idle, i))
            && (d.Build? ==> q.busy == p.busy + 1 && d.nCtx == needed && d.tick == q.tick)
            && (d.Build? && d.victim.None? ==> q.idle == p.idle && |p.idle| + p.busy < p.capacity)
            && (d.Build? && d.victim.Some? ==>
                  exists i :: 0 <= i < |p.idle| && d.victim.value == p.idle[i] && q.idle == Without(p.idle, i))
            && (d.AllBusy? ==> q.idle == p.idle && q.busy == p.busy)
  {
    hide Shared;
    match Choose(p, prompt, needed)
    case TakeWarm(i) => assert p.idle[i].(lastUsed := p.tick + 1) == Reserve(p, prompt, needed).1.slot;
    case Evict(i) => assert p.idle[i] == Reserve(p, prompt, needed).1.victim.value;
    case Grow =>
    case Full =>
  }

  /** How many slots there are, idle, checked out or being built. */
  function Slots(s: System): nat { |s.pool.idle| + |s.turns| }

  /**
   * Slots are neither lost nor made up: only a reservation that grows the pool adds one,
   * only a failed build takes one away, and a returned one is idle as its turn left it.
   */
  lemma SlotsAreConserved(cfg: Config, s: System, step: Step)
    requires Inv(cfg, s) && Enabled(s, step)
    ensures var t := Apply(cfg, s, step);
            && (step.Reserving? ==>
                  var d := Reserve(s.pool, step.prompt, step.needed).1;
                  Slots(t) == Slots(s) + if d.Build? && d.victim.None? then 1 else 0)
            && (step.BuildFails? ==> Slots(t) == Slots(s) - 1)
            && (!step.Reserving? && !step.BuildFails? ==> Slots(t) == Slots(s))
            && (step.Returning? ==> s.turns[step.id].slot in t.pool.idle && forall x :: x in s.pool.idle ==> x in t.pool.idle)
  {
    hide GenerateInSlot, Shared;
    var t := Apply(cfg, s, step);
    if step.Reserving? {
      ReserveTakesOne(s.pool, step.prompt, step.needed);
      assert t.turns == s.turns || |t.turns.Keys| == |s.turns.Keys + {step.id}| == |s.turns.Keys| + 1;
    } else if step.BuildFails? || step.Returning? {
      assert t.turns.Keys == s.turns.Keys - {step.id};
      assert |t.turns.Keys| == |s.turns.Keys| - 1;
    } else {
      assert t.turns.Keys == s.turns.Keys;
      assert |t.turns.Keys| == |s.turns.Keys|;
    }
  }
}
