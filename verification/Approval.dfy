/** `ApprovalBroker`: which actions go ahead, who is asked, what is remembered and recorded. */
module Approval {
  import opened Common

  datatype Risk = ReadOnly | WorkspaceWrite | ExternalSideEffect | Destructive

  datatype Rule = Allow | Ask | Deny

  datatype Policy = Policy(workspaceWrite: Rule, externalSideEffect: Rule, destructive: Rule)

  datatype Answer = AllowOnce | AllowForSession | DenyIt

  datatype Outcome =
    | Allowed | AllowedBySession | AllowedOnce | AllowedForSession
    | Denied | DeniedByPolicy | Unanswerable

  datatype Request = Request(action: string, target: string, risk: Risk)

  datatype Record = Record(action: string, target: string, risk: Risk, outcome: Outcome)

  /** Who answers questions: a client that may go away, a terminal, or nobody. */
  datatype Asked = Client(answer: Option<Answer>) | Terminal(typed: Option<Answer>) | Nobody

  const JOURNAL_CAPACITY: nat := 128

  function GrantableForSession(risk: Risk): bool { risk != Destructive }

  function RuleFor(policy: Policy, risk: Risk): Rule {
    match risk
    case ReadOnly => Allow
    case WorkspaceWrite => policy.workspaceWrite
    case ExternalSideEffect => policy.externalSideEffect
    case Destructive => policy.destructive
  }

  predicate IsYes(o: Outcome) { !(o.Denied? || o.DeniedByPolicy? || o.Unanswerable?) }

  // ---- one request ------------------------------------------------------------------

  datatype Broker = Broker(granted: set<Risk>, journal: seq<Record>)

  /** The answer to a question; the terminal offers "all" only where it can be kept. */
  function AnswerTo(risk: Risk, asked: Asked): Option<Answer> {
    match asked
    case Client(a) => a
    case Terminal(Some(AllowForSession)) => Some(if GrantableForSession(risk) then AllowForSession else DenyIt)
    case Terminal(Some(a)) => Some(a)
    case Terminal(None) => Some(DenyIt)
    case Nobody => None
  }

  /** Whether a request is put to anyone. */
  predicate IsAsked(policy: Policy, b: Broker, risk: Risk) {
    risk != ReadOnly && risk !in b.granted && RuleFor(policy, risk) == Ask
  }

  /** `decide`; no outcome means the client went away, which decides nothing. */
  function Decide(policy: Policy, b: Broker, risk: Risk, asked: Asked): Option<Outcome> {
    if risk in b.granted then Some(AllowedBySession)
    else
      match RuleFor(policy, risk)
      case Allow => Some(Allowed)
      case Deny => Some(DeniedByPolicy)
      case Ask =>
        if asked == Nobody then Some(Unanswerable)
        else
          match AnswerTo(risk, asked)
          case None => None
          case Some(AllowOnce) => Some(AllowedOnce)
          case Some(AllowForSession) => Some(if GrantableForSession(risk) then AllowedForSession else AllowedOnce)
          case Some(DenyIt) => Some(Denied)
  }

  /** The last `JOURNAL_CAPACITY` of some records. */
  function Newest(records: seq<Record>): seq<Record> { records[Excess(|records|)..] }

  function Excess(n: nat): nat { if n > JOURNAL_CAPACITY then n - JOURNAL_CAPACITY else 0 }

  function Pushed(journal: seq<Record>, r: Record): seq<Record> {
    (if |journal| >= JOURNAL_CAPACITY then journal[1..] else journal) + [r]
  }

  /** `authorize`. */
  function Authorize(policy: Policy, b: Broker, req: Request, asked: Asked): (Broker, bool) {
    if req.risk == ReadOnly then (b, true)
    else
      match Decide(policy, b, req.risk, asked)
      case None => (b, false)
      case Some(outcome) =>
        var granted := if outcome == AllowedForSession then b.granted + {req.risk} else b.granted;
        (Broker(granted, Pushed(b.journal, Record(req.action, req.target, req.risk, outcome))), IsYes(outcome))
  }

  // ---- a session --------------------------------------------------------------------

  datatype Event = Requested(req: Request, asked: Asked) | Taken

  datatype Session = Session(broker: Broker, since: seq<Record>)

  /** Every decision since the journal was last taken, kept in full beside the broker. */
  function Decisions(policy: Policy, b: Broker, req: Request, asked: Asked): seq<Record> {
    if req.risk == ReadOnly then []
    else
      match Decide(policy, b, req.risk, asked)
      case None => []
      case Some(outcome) => [Record(req.action, req.target, req.risk, outcome)]
  }

  function Live(policy: Policy, events: seq<Event>): Session
    decreases |events|
  {
    if events == [] then Session(Broker({}, []), [])
    else
      var s := Live(policy, events[..|events| - 1]);
      match events[|events| - 1]
      case Requested(req, asked) =>
        Session(Authorize(policy, s.broker, req, asked).0, s.since + Decisions(policy, s.broker, req, asked))
      case Taken => Session(s.broker.(journal := []), [])
  }

  /** An allow-for-session answer, given for a tier when it was really asked about. */
  ghost predicate AnsweredForSession(policy: Policy, events: seq<Event>, k: nat, risk: Risk)
    requires k < |events|
  {
    && events[k].Requested? && events[k].req.risk == risk
    && IsAsked(policy, Live(policy, events[..k]).broker, risk)
    && AnswerTo(risk, events[k].asked) == Some(AllowForSession)
  }

  lemma PushedNewest(all: seq<Record>, r: Record)
    ensures Newest(all + [r]) == Pushed(Newest(all), r)
  {}

  /** The journal is always the newest 128 of the decisions made since it was last taken. */
  lemma {:induction false} JournalIsNewest(policy: Policy, events: seq<Event>)
    ensures var s := Live(policy, events);
            && s.broker.journal == Newest(s.since) && |s.broker.journal| <= 128
            && (|s.since| <= 128 ==> s.broker.journal == s.since)
            && (|s.since| > 128 ==> s.broker.journal == s.since[|s.since| - 128..])
    decreases |events|
  {
    if events != [] {
      JournalIsNewest(policy, events[..|events| - 1]);
      var before := Live(policy, events[..|events| - 1]);
      if events[|events| - 1].Requested? {
        var made := Decisions(policy, before.broker, events[|events| - 1].req, events[|events| - 1].asked);
        if made == [] {
          assert before.since + made == before.since;
        } else {
          PushedNewest(before.since, made[0]);
          assert made == [made[0]];
        }
      }
    }
  }

  /**
   * Which tiers are granted after a session: exactly those somebody allowed for the
   * session when asked; and the destructive tier is never among them.
   */
  lemma {:induction false} GrantsAreAnswered(policy: Policy, events: seq<Event>, risk: Risk)
    ensures risk in Live(policy, events).broker.granted
            <==> risk != Destructive && exists k :: 0 <= k < |events| && AnsweredForSession(policy, events, k, risk)
    decreases |events|
  {
    if events != [] {
      var init := events[..|events| - 1];
      GrantsAreAnswered(policy, init, risk);
      forall k | 0 <= k < |init|
        ensures AnsweredForSession(policy, events, k, risk) <==> AnsweredForSession(policy, init, k, risk)
      {
        assert events[..k] == init[..k];
      }
      LastGrant(policy, events, risk);
      if risk in Live(policy, init).broker.granted {
        var k :| 0 <= k < |init| && AnsweredForSession(policy, init, k, risk);
        assert AnsweredForSession(policy, events, k, risk);
      }
    }
  }

  /** One event grants a tier exactly when it is such an answer. */
  lemma LastGrant(policy: Policy, events: seq<Event>, risk: Risk)
    requires events != []
    ensures risk in Live(policy, events).broker.granted
            <==> risk in Live(policy, events[..|events| - 1]).broker.granted
                 || (risk != Destructive && AnsweredForSession(policy, events, |events| - 1, risk))
  {
    hide RuleFor, Pushed, IsYes;
  }

  /** Once granted, a tier passes for the rest of the session and is never asked about again. */
  lemma {:induction false} GrantedForGood(policy: Policy, events: seq<Event>, more: seq<Event>, risk: Risk)
    requires risk in Live(policy, events).broker.granted
    ensures risk in Live(policy, events + more).broker.granted
    ensures !IsAsked(policy, Live(policy, events + more).broker, risk)
    ensures forall req: Request, asked :: req.risk == risk ==>
      Authorize(policy, Live(policy, events + more).broker, req, asked).1
    decreases |more|
  {
    if more == [] {
      assert events + more == events;
    } else {
      assert (events + more)[..|events + more| - 1] == events + more[..|more| - 1];
      GrantedForGood(policy, events, more[..|more| - 1], risk);
    }
  }

  /** With nobody ever there to ask, what is authorised depends on the tier and the policy alone. */
  lemma {:induction false} NobodyToAsk(policy: Policy, events: seq<Event>, req: Request)
    requires forall k :: 0 <= k < |events| && events[k].Requested? ==> events[k].asked == Nobody
    ensures Live(policy, events).broker.granted == {}
    ensures Authorize(policy, Live(policy, events).broker, req, Nobody).1 == (RuleFor(policy, req.risk) == Allow)
    decreases |events|
  {
    if events != [] { NobodyToAsk(policy, events[..|events| - 1], req); }
  }

  // ---- what each answer comes to ----------------------------------------------------

  /** Which answers, from whom, let an action of a tier go ahead. */
  predicate IsYesFrom(asked: Asked, risk: Risk) {
    || asked == Client(Some(AllowOnce)) || asked == Client(Some(AllowForSession))
    || asked == Terminal(Some(AllowOnce)) || (asked == Terminal(Some(AllowForSession)) && risk != Destructive)
  }

  /** And which let its whole tier go ahead from then on. */
  predicate IsYesToAll(asked: Asked, risk: Risk) {
    (asked == Client(Some(AllowForSession)) || asked == Terminal(Some(AllowForSession))) && risk != Destructive
  }

  /** Which of a request's three tiers a policy is asked about, and which it lets pass. */
  lemma RulesPerTier(w: Rule, e: Rule, d: Rule, b: Broker, req: Request)
    ensures var policy := Policy(w, e, d);
            && (IsAsked(policy, b, req.risk) <==>
                  req.risk !in b.granted &&
                  ((req.risk == WorkspaceWrite && w == Ask) || (req.risk == ExternalSideEffect && e == Ask)
                   || (req.risk == Destructive && d == Ask)))
            && (req.risk !in b.granted ==>
                  (Authorize(policy, b, req, Nobody).1 <==>
                     req.risk == ReadOnly || (req.risk == WorkspaceWrite && w == Allow)
                     || (req.risk == ExternalSideEffect && e == Allow) || (req.risk == Destructive && d == Allow)))
  {}

  /**
   * A request that is really asked goes ahead exactly when the answer is a yes; a refusal
   * refuses, and is recorded as one; a client that went away refuses too, and leaves no
   * record; and only a yes to all of a tier that may be granted is remembered.
   */
  lemma AskedIsAnswered(policy: Policy, b: Broker, req: Request, asked: Asked)
    requires IsAsked(policy, b, req.risk)
    ensures var (after, ok) := Authorize(policy, b, req, asked);
            && (ok <==> IsYesFrom(asked, req.risk))
            && after.granted == (if IsYesToAll(asked, req.risk) then b.granted + {req.risk} else b.granted)
            && (asked == Client(None) ==> after.journal == b.journal)
            && (asked != Client(None) ==>
                  exists o :: after.journal == Pushed(b.journal, Record(req.action, req.target, req.risk, o))
                              && (o == Unanswerable <==> asked == Nobody)
                              && (o == Denied <==> asked != Nobody && !IsYesFrom(asked, req.risk))
                              && (o == AllowedForSession <==> IsYesToAll(asked, req.risk))
                              && (o == AllowedOnce <==> IsYesFrom(asked, req.risk) && !IsYesToAll(asked, req.risk)))
  {
    hide Pushed;
    if asked != Client(None) {
      var o := Decide(policy, b, req.risk, asked).value;
      assert Authorize(policy, b, req, asked).0.journal == Pushed(b.journal, Record(req.action, req.target, req.risk, o));
    }
  }

  /**
   * One that is not asked goes ahead exactly when it only reads, its tier is granted, or the
   * policy allows it, whoever there would be to ask; and grants nothing.
   */
  lemma NotAskedIsPolicy(policy: Policy, b: Broker, req: Request, asked: Asked)
    requires !IsAsked(policy, b, req.risk)
    ensures var (after, ok) := Authorize(policy, b, req, asked);
            && (ok <==> req.risk == ReadOnly || req.risk in b.granted || RuleFor(policy, req.risk) == Allow)
            && after.granted == b.granted
            && (req.risk == ReadOnly ==> after == b)
            && (req.risk != ReadOnly ==>
                  after.journal == Pushed(b.journal, Record(req.action, req.target, req.risk,
                    if req.risk in b.granted then AllowedBySession else if ok then Allowed else DeniedByPolicy)))
  {
    hide Pushed;
  }

  // ---- the broker itself ------------------------------------------------------------

  class ApprovalBroker {
    const policy: Policy
    var granted: set<Risk>
    var journal: seq<Record>

    function View(): Broker reads this { Broker(granted, journal) }

    constructor (policy: Policy)
      ensures this.policy == policy && View() == Broker({}, [])
    {
      this.policy := policy;
      granted, journal := {}, [];
    }

    method Grant(risk: Risk)
      modifies this`granted
      ensures granted == if GrantableForSession(risk) then old(granted) + {risk} else old(granted)
    {
      if GrantableForSession(risk) { granted := granted + {risk}; }
    }

    method RecordOutcome(req: Request, outcome: Outcome)
      modifies this`journal
      ensures journal == Pushed(old(journal), Record(req.action, req.target, req.risk, outcome))
    {
      if |journal| >= JOURNAL_CAPACITY { journal := journal[1..]; }
      journal := journal + [Record(req.action, req.target, req.risk, outcome)];
    }

    method AskAbout(risk: Risk, asked: Asked) returns (outcome: Option<Outcome>)
      requires risk !in granted && RuleFor(policy, risk) == Ask
      modifies this`granted
      ensures outcome == Decide(policy, old(View()), risk, asked)
      ensures granted == if outcome == Some(AllowedForSession) then old(granted) + {risk} else old(granted)
    {
      if asked == Nobody { return Some(Unanswerable); }
      var answer := AnswerTo(risk, asked);
      if answer.None? { return None; }
      match answer.value
      case AllowOnce => outcome := Some(AllowedOnce);
      case AllowForSession =>
        Grant(risk);
        outcome := Some(if GrantableForSession(risk) then AllowedForSession else AllowedOnce);
      case DenyIt => outcome := Some(Denied);
    }

    /** `authorize`, with `decide`. */
    method AuthorizeRequest(req: Request, asked: Asked) returns (ok: bool)
      modifies this
      ensures (View(), ok) == Authorize(policy, old(View()), req, asked)
    {
      if req.risk == ReadOnly { return true; }
      var outcome: Option<Outcome>;
      if req.risk in granted {
        outcome := Some(AllowedBySession);
      } else {
        match RuleFor(policy, req.risk)
        case Allow => outcome := Some(Allowed);
        case Deny => outcome := Some(DeniedByPolicy);
        case Ask => outcome := AskAbout(req.risk, asked);
      }
      if outcome.None? { return false; }
      RecordOutcome(req, outcome.value);
      return IsYes(outcome.value);
    }

    method TakeJournal() returns (taken: seq<Record>)
      modifies this`journal
      ensures taken == old(journal) && journal == []
    {
      taken := journal;
      journal := [];
    }
  }
}
