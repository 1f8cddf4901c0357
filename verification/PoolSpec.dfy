/**
 * The slot pool and the turns that share it: `reserve`, and a machine whose steps are
 * what happens under the pool's lock or on a slot no other turn can see.
 */
module PoolSpec {
  import opened Common
  import opened SlotSpec

  datatype Pool = Pool(idle: seq<Slot>, busy: nat, capacity: nat, tick: nat)

  datatype Decision =
    | Ready(slot: Slot)
    | Build(nCtx: nat, victim: Option<Slot>, tick: nat)
    | AllBusy

  // ---- choosing ---------------------------------------------------------------------

  function Shared(s: Slot, prompt: seq<Token>): nat { CommonPrefixLen(s.tokens, prompt) }

  /** The fitting slot sharing most with the prompt; the last such one among equals. */
  function Warmest(idle: seq<Slot>, prompt: seq<Token>, needed: nat): (w: Option<nat>)
    ensures w.Some? ==>
      && w.value < |idle| && idle[w.value].nCtx >= needed
      && forall i :: 0 <= i < |idle| && idle[i].nCtx >= needed ==>
           Shared(idle[i], prompt) <= Shared(idle[w.value], prompt)
    ensures w.None? ==> forall i :: 0 <= i < |idle| ==> idle[i].nCtx < needed
  {
    if idle == [] then None
    else
      var last := |idle| - 1;
      var w := Warmest(idle[..last], prompt, needed);
      if idle[last].nCtx >= needed
         && (w.None? || Shared(idle[w.value], prompt) <= Shared(idle[last], prompt)) then Some(last)
      else w
  }

  /** The least recently reserved slot; the first such one among equals. */
  function Coldest(idle: seq<Slot>): (c: Option<nat>)
    ensures c.None? <==> idle == []
    ensures c.Some? ==>
      && c.value < |idle|
      && (forall i :: 0 <= i < |idle| ==> idle[c.value].lastUsed <= idle[i].lastUsed)
      && (forall i :: 0 <= i < c.value ==> idle[c.value].lastUsed < idle[i].lastUsed)
  {
    if idle == [] then None
    else
      var last := |idle| - 1;
      var c := Coldest(idle[..last]);
      if c.None? || idle[last].lastUsed < idle[c.value].lastUsed then Some(last) else c
  }

  /** Looking at one slot more. */
  lemma WarmestStep(idle: seq<Slot>, n: nat, prompt: seq<Token>, needed: nat)
    requires n < |idle|
    ensures var w := Warmest(idle[..n], prompt, needed);
            Warmest(idle[..n + 1], prompt, needed)
            == if idle[n].nCtx >= needed
                  && (w.None? || Shared(idle[w.value], prompt) <= Shared(idle[n], prompt)) then Some(n) else w
  {
    assert idle[..n + 1][..n] == idle[..n];
  }

  lemma ColdestStep(idle: seq<Slot>, n: nat)
    requires n < |idle|
    ensures var c := Coldest(idle[..n]);
            Coldest(idle[..n + 1])
            == if c.None? || idle[n].lastUsed < idle[c.value].lastUsed then Some(n) else c
  {
    assert idle[..n + 1][..n] == idle[..n];
  }

  function Without<T>(xs: seq<T>, i: nat): seq<T>
    requires i < |xs|
  {
    xs[..i] + xs[i + 1..]
  }

  /** The pool once its `i`-th idle slot is taken out of it. */
  function CheckedOut(p: Pool, i: nat): Pool
    requires i < |p.idle|
  {
    p.(idle := Without(p.idle, i), busy := p.busy + 1)
  }

  /** Which of its four ways out `reserve` takes. */
  datatype Choice = TakeWarm(warm: nat) | Grow | Evict(cold: nat) | Full

  function Choose(p: Pool, prompt: seq<Token>, needed: nat): (c: Choice)
    ensures c.TakeWarm? ==> c.warm < |p.idle|
    ensures c.Evict? ==> c.cold < |p.idle|
  {
    var w := Warmest(p.idle, prompt, needed);
    if w.Some? && (Shared(p.idle[w.value], prompt) > 0 || |p.idle| + p.busy >= p.capacity) then TakeWarm(w.value)
    else if |p.idle| + p.busy < p.capacity then Grow
    else
      var c := Coldest(p.idle);
      if c.None? then Full else Evict(c.value)
  }

  /** `reserve`. */
  function Reserve(before: Pool, prompt: seq<Token>, needed: nat): (Pool, Decision) {
    var p := before.(tick := before.tick + 1);
    match Choose(before, prompt, needed)
    case TakeWarm(i) => (CheckedOut(p, i), Ready(p.idle[i].(lastUsed := p.tick)))
    case Grow => (p.(busy := p.busy + 1), Build(needed, None, p.tick))
    case Evict(i) => (CheckedOut(p, i), Build(needed, Some(p.idle[i]), p.tick))
    case Full => (p, AllBusy)
  }

  // ---- the machine ------------------------------------------------------------------

  type TurnId = nat

  /** What a turn holds between reserving and returning. */
  datatype Turn =
    | Building(needed: nat, victim: Option<Slot>, tick: nat)
    | Holding(slot: Slot)

  datatype System = System(pool: Pool, turns: map<TurnId, Turn>, refuses: bool)

  /** One atomic step, with whatever the world answers to it. */
  datatype Step =
    | Reserving(id: TurnId, prompt: seq<Token>, needed: nat)
    | DropVictim(id: TurnId)
    | BuildOk(id: TurnId, granted: nat)
    | BuildFails(id: TurnId)
    | Generating(id: TurnId, next: Model, prompt: seq<Token>, env: Env)
    | Returning(id: TurnId)

  function TurnAfter(d: Decision): Option<Turn> {
    match d
    case Ready(slot) => Some(Holding(slot))
    case Build(n, victim, tick) => Some(Building(n, victim, tick))
    case AllBusy => None
  }

  predicate Enabled(s: System, step: Step) {
    match step
    case Reserving(id, _, _) => id !in s.turns
    case DropVictim(id) => id in s.turns && s.turns[id].Building? && s.turns[id].victim.Some?
    case BuildOk(id, _) => id in s.turns && s.turns[id].Building? && s.turns[id].victim.None?
    case BuildFails(id) => id in s.turns && s.turns[id].Building? && s.turns[id].victim.None?
    case Generating(id, _, _, _) => id in s.turns && s.turns[id].Holding?
    case Returning(id) => id in s.turns && s.turns[id].Holding?
  }

  /** `busy -= 1`; a count that is already 0 would panic, and never is (see `PoolSafety`). */
  function Released(p: Pool): Pool { p.(busy := Sub(p.busy, 1)) }

  function Returned(p: Pool, slot: Slot): Pool { Released(p).(idle := p.idle + [slot]) }

  /** The turn `id`'s next step. */
  function Apply(cfg: Config, s: System, step: Step): System
    requires Enabled(s, step)
  {
    match step
    case Reserving(id, prompt, needed) =>
      var (pool, d) := Reserve(s.pool, prompt, needed);
      var turn := TurnAfter(d);
      s.(pool := pool, turns := if turn.Some? then s.turns[id := turn.value] else s.turns)
    case DropVictim(id) =>
      s.(turns := s.turns[id := s.turns[id].(victim := None)])
    case BuildOk(id, granted) =>
      s.(turns := s.turns[id := Holding(Slot([], [], granted, s.turns[id].tick, None))])
    case BuildFails(id) =>
      s.(pool := Released(s.pool), turns := s.turns - {id})
    case Generating(id, next, prompt, env) =>
      var c := GenerateInSlot(cfg, next, s.refuses, s.turns[id].slot, prompt, env);
      s.(turns := s.turns[id := Holding(c.slot)], refuses := c.refuses)
    case Returning(id) =>
      s.(pool := Returned(s.pool, s.turns[id].slot), turns := s.turns - {id})
  }

  function Initial(capacity: nat, refuses: bool): System {
    System(Pool([], 0, capacity, 0), map[], refuses)
  }

  /** Any interleaving: steps that are not enabled do not happen. */
  function Run(cfg: Config, s: System, steps: seq<Step>): System
    decreases |steps|
  {
    if steps == [] then s
    else
      var before := Run(cfg, s, steps[..|steps| - 1]);
      var step := steps[|steps| - 1];
      if Enabled(before, step) then Apply(cfg, before, step) else before
  }
}
