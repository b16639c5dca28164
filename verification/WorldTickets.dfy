/** The life of an intercepted request: queued, taken by one thread, its callback run
    once, its continuation run once; or removed by the close of its own session. */
module WorldTickets {
  import opened MitmSpec
  import opened World
  import opened WorldSteps

  /** One step in the life of a ticket of a session that is now closed or not. */
  predicate Next(a: Status, b: Status) {
    || b == a
    || (a.Queued? && (b.Removed? || b.Taken?))
    || (a.Taken? && b == Posted(a.a))
    || (a.Posted? && b == Ran(a.a))
  }

  /** The callback of ticket t runs in this step. */
  predicate Fires(w: World, e: Event, t: nat) {
    e.Deliver? && t < |w.tickets| && FirstTaken(w.tickets, e.th, 0) == t
  }

  /** The continuation of ticket t runs in this step. */
  predicate Continues(w: World, e: Event, t: nat) {
    e == RunPosted(t) && t < |w.tickets| && w.tickets[t].status.Posted?
  }

  predicate TicketMoves(w: World, e: Event, t: nat)
    requires t < |w.tickets| && t < |Step(w, e).tickets|
  {
    var x, y := w.tickets[t], Step(w, e).tickets[t];
    && y == x.(status := y.status) && Next(x.status, y.status)
    && (Fires(w, e, t) <==> x.status.Taken? && y.status.Posted?)
    && (Continues(w, e, t) <==> x.status.Posted? && y.status.Ran?)
    && (y.status.Taken? && y != x ==>
          (e == TakeFront(y.status.th, y.status.a) || e == TakeAll(y.status.th, y.status.a)))
  }

  lemma HandleTicket(w: World, k: nat, h: Handler, t: nat)
    requires t < |w.tickets|
    ensures t < |Handle(w, k, h).tickets| && TicketMoves(w, At(k, h), t)
    ensures Handle(w, k, h).tickets[t] == w.tickets[t] || Handle(w, k, h).tickets[t].status == Removed
  {
    hide Handled;
  }

  lemma StepTicket(w: World, e: Event, t: nat)
    requires t < |w.tickets|
    ensures t < |Step(w, e).tickets| && TicketMoves(w, e, t)
  {
    hide OnDecision, Current;
    match e {
      case At(k, h) => hide Handle; HandleTicket(w, k, h, t);
      case RunPosted(i) =>
      case TakeFront(_, _) =>
      case TakeAll(_, _) =>
      case Deliver(_) =>
      case Edit(_, _) =>
      case PlainRequest(_, _, _) =>
      case PlainClose(_) =>
    }
  }

  lemma OnlyClosing(w: World, k: nat, h: Handler, t: nat)
    requires t < |w.tickets| && t < |Handle(w, k, h).tickets|
    requires w.tickets[t].status != Removed && Handle(w, k, h).tickets[t].status == Removed
    ensures k < |w.sessions| && !IsArrival(w.sessions[k], h)
      && Handle(w, k, h) == Put(w, k, Handled(w, w.sessions[k], h))
    ensures !w.sessions[k].closed && Handled(w, w.sessions[k], h).closed
  {
    hide Handled, RemovedById;
  }

  lemma HandleRemoves(w: World, k: nat, h: Handler, t: nat)
    requires Inv(w) && t < |w.tickets| && t < |Handle(w, k, h).tickets|
    requires w.tickets[t].status != Removed && Handle(w, k, h).tickets[t].status == Removed
    ensures k == w.tickets[t].sess && k < |w.sessions| && k < |Handle(w, k, h).sessions|
    ensures !w.sessions[k].closed && Handle(w, k, h).sessions[k].closed
  {
    OnlyClosing(w, k, h, t);
    assert SessionOk(w, k);
    hide Inv, SessionOk, SessionInv, Handled, Keeps, Upstream, Downstream, IsArrival, Handle, RemovedById;
    HandledStep(w, w.sessions[k], h);
    ClosingRemoves(w, k, Handled(w, w.sessions[k], h), t);
  }

  /** A request leaves the queue without a decision only when its own session closes. */
  lemma RemovedByOwner(w: World, e: Event, t: nat)
    requires Inv(w) && t < |w.tickets| && t < |Step(w, e).tickets|
    requires w.tickets[t].status != Removed && Step(w, e).tickets[t].status == Removed
    ensures var k := w.tickets[t].sess;
            if k < |w.sessions|
            then e.At? && e.k == k < |Step(w, e).sessions| && !w.sessions[k].closed && Step(w, e).sessions[k].closed
            else e == PlainClose(w.tickets[t].id)
  {
    match e {
      case At(k, h) => hide Inv; HandleRemoves(w, k, h, t);
      case RunPosted(_) =>
      case TakeFront(_, _) =>
      case TakeAll(_, _) =>
      case Deliver(_) =>
      case Edit(_, _) =>
      case PlainRequest(_, _, _) =>
      case PlainClose(id) => if PlainDrew(w, id) { hide Inv; PlainRemoves(w, id, t); }
    }
  }

  /** The close of a plain session takes its pending request from the queue, and that
      only; a session closes what it drew. */
  lemma PlainCloseMeans(w: World, id: nat, t: nat)
    requires t < |w.tickets|
    ensures var s := Step(w, PlainClose(id));
            && s == w.(tickets := s.tickets) && |s.tickets| == |w.tickets|
            && s.tickets[t] ==
               if 1 <= id <= |w.draws| && w.draws[id - 1].1.sess >= |w.sessions|
                  && w.tickets[t].status == Queued && w.tickets[t].id == id
               then Ticket(id, w.tickets[t].sess, w.tickets[t].ref, Removed) else w.tickets[t]
  {
  }

  // ------------------------------------------------------------------- whole lives

  function Fired(n: nat, events: seq<Event>, t: nat): nat {
    if events == [] then 0
    else
      var before := events[..|events| - 1];
      Fired(n, before, t) + (if Fires(Exec(n, before), events[|events| - 1], t) then 1 else 0)
  }

  function Continued(n: nat, events: seq<Event>, t: nat): nat {
    if events == [] then 0
    else
      var before := events[..|events| - 1];
      Continued(n, before, t) + (if Continues(Exec(n, before), events[|events| - 1], t) then 1 else 0)
  }

  lemma StepTickets(w: World, e: Event)
    ensures |w.tickets| <= |Step(w, e).tickets|
    ensures forall t | |w.tickets| <= t < |Step(w, e).tickets| :: Step(w, e).tickets[t].status == Queued
  {
    hide Handled, OnDecision;
  }

  /** The callback has run exactly once on a decided ticket, never on a queued, taken or
      removed one; likewise the continuation. */
  lemma {:induction false} FiresOnce(n: nat, events: seq<Event>, t: nat)
    ensures var ts := Exec(n, events).tickets;
            if t < |ts| then
              && Fired(n, events, t) == (if ts[t].status.Posted? || ts[t].status.Ran? then 1 else 0)
              && Continued(n, events, t) == (if ts[t].status.Ran? then 1 else 0)
            else Fired(n, events, t) == 0 && Continued(n, events, t) == 0
  {
    if events == [] {
    } else {
      var before, e := events[..|events| - 1], events[|events| - 1];
      var w := Exec(n, before);
      FiresOnce(n, before, t);
      StepTickets(w, e);
      if t < |w.tickets| { StepTicket(w, e, t); }
      hide Step;
    }
  }

  predicate Later(a: Status, b: Status) {
    || b == a
    || a.Queued?
    || (a.Taken? && (b == Posted(a.a) || b == Ran(a.a)))
    || (a.Posted? && b == Ran(a.a))
  }

  /** A ticket never goes back, keeps its request and its session, and its fate is the
      action of the thread that took it. */
  lemma {:induction false} TicketLife(n: nat, events: seq<Event>, more: seq<Event>, t: nat)
    requires t < |Exec(n, events).tickets|
    ensures t < |Exec(n, events + more).tickets|
    ensures var x, y := Exec(n, events).tickets[t], Exec(n, events + more).tickets[t];
            y == x.(status := y.status) && Later(x.status, y.status)
  {
    hide Step;
    if more == [] {
      assert events + more == events;
    } else {
      var m := more[..|more| - 1];
      TicketLife(n, events, m, t);
      assert (events + more)[..|events + more| - 1] == events + m;
      StepTicket(Exec(n, events + m), more[|more| - 1], t);
    }
  }

  // ------------------------------------------------------------------------- order

  predicate HeldBy(st: Status, th: nat) {
    st.Taken? && st.th == th
  }

  /** Of two requests taken by one thread the older one's callback runs first: so a
      forwardAll delivers what was pending when it took the lock, in order. */
  lemma {:induction false} DeliveredInOrder(n: nat, events: seq<Event>, more: seq<Event>, th: nat, t1: nat, t2: nat)
    requires t1 < t2 < |Exec(n, events).tickets|
    requires HeldBy(Exec(n, events).tickets[t1].status, th) && HeldBy(Exec(n, events).tickets[t2].status, th)
    ensures t2 < |Exec(n, events + more).tickets|
    ensures var ts := Exec(n, events + more).tickets; HeldBy(ts[t1].status, th) ==> HeldBy(ts[t2].status, th)
  {
    hide Step;
    if more == [] {
      assert events + more == events;
    } else {
      var m := more[..|more| - 1];
      DeliveredInOrder(n, events, m, th, t1, t2);
      assert (events + more)[..|events + more| - 1] == events + m;
      StepTicket(Exec(n, events + m), more[|more| - 1], t1);
      StepTicket(Exec(n, events + m), more[|more| - 1], t2);
      TicketLife(n, events, m, t1);
    }
  }

  lemma TakenAtLock(w: World, th: nat, a: Action, t: nat)
    requires t < |w.tickets| && w.tickets[t].status.Queued? && ThreadIdle(w.tickets, th)
    ensures t < |Step(w, TakeAll(th, a)).tickets| && Step(w, TakeAll(th, a)).tickets[t].status == Taken(th, a)
  {
  }

  lemma IdleHoldsNothing(ts: seq<Ticket>, th: nat, t: nat)
    requires ThreadIdle(ts, th) && t < |ts|
    ensures !HeldBy(ts[t].status, th)
  {
  }

  /** Once a forwardAll or dropAll is over, every request that was pending when it took
      the lock has been called back with its action, whatever happened meanwhile: none
      is removed by a close or decided otherwise. */
  lemma {:induction false} TakesAllPending(n: nat, events: seq<Event>, th: nat, a: Action, more: seq<Event>, t: nat)
    requires var ts := Exec(n, events).tickets; t < |ts| && ts[t].status.Queued? && ThreadIdle(ts, th)
    requires ThreadIdle(Exec(n, events + [TakeAll(th, a)] + more).tickets, th)
    ensures var ts := Exec(n, events + [TakeAll(th, a)] + more).tickets;
            t < |ts| && (ts[t].status == Posted(a) || ts[t].status == Ran(a))
  {
    var e := TakeAll(th, a);
    assert (events + [e])[..|events + [e]| - 1] == events;
    TakenAtLock(Exec(n, events), th, a, t);
    TicketLife(n, events + [e], more, t);
    IdleHoldsNothing(Exec(n, events + [e] + more).tickets, th, t);
  }

  predicate IsFront(ts: seq<Ticket>, t: nat) {
    t < |ts| && FirstQueued(ts, 0) == t
  }

  lemma FrontIs(ts: seq<Ticket>, t: nat)
    requires t < |ts|
    ensures IsFront(ts, t) <==> ts[t].status.Queued? && forall i | 0 <= i < t :: !ts[i].status.Queued?
  {
  }

  /** Later arrivals and the fate of others leave the front of the queue alone: what
      was peeked is what a forward takes, as long as it is still pending. */
  lemma {:induction false} FrontStays(n: nat, events: seq<Event>, more: seq<Event>, t: nat, th: nat, a: Action)
    requires IsFront(Exec(n, events).tickets, t)
    requires t < |Exec(n, events + more).tickets| && Exec(n, events + more).tickets[t].status.Queued?
    requires ThreadIdle(Exec(n, events + more).tickets, th)
    ensures t < |Step(Exec(n, events + more), TakeFront(th, a)).tickets|
    ensures Step(Exec(n, events + more), TakeFront(th, a)).tickets[t].status == Taken(th, a)
  {
    var ts, ts' := Exec(n, events).tickets, Exec(n, events + more).tickets;
    FrontIs(ts, t);
    forall i: nat | i < t ensures !ts'[i].status.Queued? {
      TicketLife(n, events, more, i);
    }
    hide Exec;
    FrontIs(ts', t);
  }
}
