/** `SteerInbox`: text pushed to a running turn, under one lock, and never lost unnoticed. */
module Steer {

  type Message = string

  datatype Inbox = Inbox(pending: seq<Message>, closed: bool)

  /** What any side may do, each under the lock. */
  datatype Op = Push(text: Message) | Finish | Close | Drain

  /** The inbox, and what the world has seen of it. */
  datatype Run = Run(
    inbox: Inbox,
    accepted: seq<Message>,    // pushes that were answered with true, in order
    delivered: seq<Message>,   // everything drained, in order
    forced: bool)              // whether `close` was ever called

  function Next(i: Inbox, op: Op): Inbox {
    match op
    case Push(text) => if i.closed then i else i.(pending := i.pending + [text])
    case Finish => if i.pending != [] then i else i.(closed := true)
    case Close => i.(closed := true)
    case Drain => i.(pending := [])
  }

  function Step(r: Run, op: Op): Run {
    Run(Next(r.inbox, op),
        r.accepted + (if op.Push? && !r.inbox.closed then [op.text] else []),
        r.delivered + (if op.Drain? then r.inbox.pending else []),
        r.forced || op.Close?)
  }

  function After(ops: seq<Op>): Run
    decreases |ops|
  {
    if ops == [] then Run(Inbox([], false), [], [], false)
    else Step(After(ops[..|ops| - 1]), ops[|ops| - 1])
  }

  /**
   * Over every interleaving: what was accepted is what was delivered and what still waits,
   * in order; and an inbox that only ever closed itself closed with everything delivered.
   */
  lemma {:induction false} NothingIsLost(ops: seq<Op>)
    ensures var r := After(ops);
            && r.accepted == r.delivered + r.inbox.pending
            && (r.inbox.closed && !r.forced ==> r.delivered == r.accepted)
    decreases |ops|
  {
    if ops != [] {
      var before := After(ops[..|ops| - 1]);
      NothingIsLost(ops[..|ops| - 1]);
      if ops[|ops| - 1].Push? {
        var text := [ops[|ops| - 1].text];
        assert before.delivered + (before.inbox.pending + text) == (before.delivered + before.inbox.pending) + text;
      }
    }
  }

  /** Once closed, an inbox stays closed and accepts nothing, whatever comes after. */
  lemma {:induction false} ClosedForGood(ops: seq<Op>, more: seq<Op>)
    requires After(ops).inbox.closed
    ensures After(ops + more).inbox.closed && After(ops + more).accepted == After(ops).accepted
    decreases |more|
  {
    if more == [] {
      assert ops + more == ops;
    } else {
      assert (ops + more)[..|ops + more| - 1] == ops + more[..|more| - 1];
      ClosedForGood(ops, more[..|more| - 1]);
    }
  }

  /** What closes an inbox: finishing an empty one, and closing any. */
  lemma ClosesNow(ops: seq<Op>)
    ensures After(ops).inbox.pending == [] ==> After(ops + [Op.Finish]).inbox.closed
    ensures After(ops).inbox.pending != [] ==> After(ops + [Op.Finish]).inbox == After(ops).inbox
    ensures After(ops + [Op.Close]).inbox.closed
  {
    assert (ops + [Op.Finish])[..|ops|] == ops && (ops + [Op.Close])[..|ops|] == ops;
  }

  /**
   * So a push that comes after a turn stopped reading, of itself or not, is not accepted;
   * one before that is, and waits until it is drained.
   */
  lemma LateIsRefused(ops: seq<Op>, stop: Op, more: seq<Op>, text: Message)
    requires stop == Op.Close || (stop == Op.Finish && After(ops).inbox.pending == [])
    ensures After(ops + [stop] + more + [Op.Push(text)]).accepted == After(ops + [stop]).accepted
  {
    hide After;
    ClosesNow(ops);
    ClosedForGood(ops + [stop], more + [Op.Push(text)]);
    assert ops + [stop] + more + [Op.Push(text)] == (ops + [stop]) + (more + [Op.Push(text)]);
  }

  lemma EarlyIsAccepted(ops: seq<Op>, text: Message)
    requires !After(ops).inbox.closed
    ensures var r := After(ops + [Op.Push(text)]);
            && r.accepted == After(ops).accepted + [text] && r.inbox.pending == After(ops).inbox.pending + [text]
            && After(ops + [Op.Push(text)] + [Op.Drain]).delivered == r.accepted
  {
    var pushed := ops + [Op.Push(text)];
    NothingIsLost(ops);
    assert pushed[..|ops|] == ops && (pushed + [Op.Drain])[..|pushed|] == pushed;
    NothingIsLost(pushed);
  }

  /** The cell itself. */
  class SteerInbox {
    var pending: seq<Message>
    var closed: bool

    function View(): Inbox reads this { Inbox(pending, closed) }

    constructor ()
      ensures View() == Inbox([], false)
    {
      pending, closed := [], false;
    }

    method Push(text: Message) returns (accepted: bool)
      modifies this
      ensures View() == Next(old(View()), Op.Push(text)) && accepted == !old(closed)
    {
      if closed { return false; }
      pending := pending + [text];
      return true;
    }

    method Finish() returns (stopped: bool)
      modifies this
      ensures View() == Next(old(View()), Op.Finish) && stopped == (old(pending) == [])
    {
      if pending != [] { return false; }
      closed := true;
      return true;
    }

    method Close()
      modifies this
      ensures View() == Next(old(View()), Op.Close)
    {
      closed := true;
    }

    method Drain() returns (messages: seq<Message>)
      modifies this
      ensures View() == Next(old(View()), Op.Drain) && messages == old(pending)
    {
      messages := pending;
      pending := [];
    }
  }
}
