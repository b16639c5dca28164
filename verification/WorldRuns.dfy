/** What holds over whole runs: every sequence of handlers, decisions, edits and
    closes, for any number of sessions.

Each account below is read off the events alone, and the theorem beside it says that
the sessions' write queues and reports agree with the account. */
module WorldRuns {
  import opened HttpRequests
  import opened MitmSpec
  import opened MitmSteps
  import opened World
  import opened WorldSteps

  // --------------------------------------------------------------- one turn token

  lemma {:induction false} SessionsStay(n: nat, events: seq<Event>)
    ensures |Exec(n, events).sessions| == n
  {
    if events == [] {
    } else {
      SessionsStay(n, events[..|events| - 1]);
    }
  }

  /** The decision a session waits for is a ticket of its own request that is queued, in
      a thread's hand, or posted. */
  predicate HasLiveTicket(w: World, k: nat)
    requires k < |w.sessions|
  {
    var s := w.sessions[k];
    && s.ticket < |w.tickets| && Live(w.tickets[s.ticket].status)
    && w.tickets[s.ticket].sess == k && w.tickets[s.ticket].id == s.cur.id && w.tickets[s.ticket].ref == s.cur.ref
  }

  /** Once joined, an open session that is not closing waits for exactly one of client
      read, decision, upstream write and upstream read; when closing after a write, for
      none, and the client write is still going. */
  lemma {:induction false} TurnToken(n: nat, events: seq<Event>, k: nat)
    requires k < n
    ensures |Exec(n, events).sessions| == n
    ensures var s := Exec(n, events).sessions[k];
            !s.closed && Joined(s) ==>
              && Turn(s.ops) == (if s.closeAfterWrite then 0 else 1)
              && |s.upstreamQ| == s.ops.upstreamWrite <= 1
              && s.ops.clientWrite == (if s.clientQ == [] then 0 else 1)
              && (s.closeAfterWrite ==> s.clientQ != [])
              && (s.upstreamQ != [] ==> s.upstreamBuf == s.upstreamQ[0])
              && (s.clientQ != [] ==> s.clientBuf == s.clientQ[0])
              && (s.ops.decision == 1 ==> HasLiveTicket(Exec(n, events), k))
  {
    SessionsStay(n, events);
    AlwaysHolds(n, events);
    assert SessionOk(Exec(n, events), k);
    hide Exec, Inv, ReportsOk;
  }

  /** The join of the two handshakes fires once, whichever finishes first, and nothing
      is read from the client before it. */
  lemma {:induction false} JoinsOnce(n: nat, events: seq<Event>, k: nat)
    requires k < n
    ensures |Exec(n, events).sessions| == n
    ensures var s := Exec(n, events).sessions[k];
            && s.joins == (if s.clientHsDone && s.upstreamHsDone then 1 else 0)
            && (!s.closed && s.joins == 0 ==> Turn(s.ops) == 0 && s.upstreamQ == [] && s.clientQ == [])
  {
    SessionsStay(n, events);
    AlwaysHolds(n, events);
    assert SessionOk(Exec(n, events), k);
    hide Exec, Inv, ReportsOk, WaitsOnTicket;
  }

  // ------------------------------------------------------------- closed is absorbing

  lemma HandleClosed(w: World, k: nat, h: Handler)
    requires Inv(w) && k < |w.sessions| && w.sessions[k].closed
    ensures |Handle(w, k, h).sessions| == |w.sessions|
    ensures var s, s' := w.sessions[k], Handle(w, k, h).sessions[k]; s' == s.(ops := s'.ops)
  {
    assert SessionOk(w, k);
    hide SessionOk, SessionInv, Inv, Upstream, Downstream, Handled;
    HandledStep(w, w.sessions[k], h);
  }

  lemma RunClosed(w: World, t: nat)
    requires Inv(w) && Running(w, t) && w.sessions[w.tickets[t].sess].closed
    ensures var s, s' := w.sessions[w.tickets[t].sess], RunDecision(w, t).sessions[w.tickets[t].sess];
            s' == s.(ops := s'.ops)
  {
    hide SessionInv, Inv, Upstream, Downstream, RanForward, RanDrop;
    DecisionRuns(w, t);
  }

  lemma StepClosed(w: World, e: Event, k: nat)
    requires Inv(w) && k < |w.sessions| && w.sessions[k].closed
    ensures k < |Step(w, e).sessions| && var s, s' := w.sessions[k], Step(w, e).sessions[k]; s' == s.(ops := s'.ops)
  {
    match e {
      case At(j, h) => hide Inv, Handled; if j == k { HandleClosed(w, k, h); }
      case RunPosted(t) =>
        hide Inv, OnDecision;
        if t < |w.tickets| && w.tickets[t].status.Posted? && w.tickets[t].sess == k { RunClosed(w, t); }
      case TakeFront(_, _) =>
      case TakeAll(_, _) =>
      case Deliver(_) =>
      case Edit(_, _) =>
      case PlainRequest(_, _, _) =>
      case PlainClose(_) =>
    }
  }

  /** A closed session writes, reads, reports and decides nothing ever again. */
  lemma {:induction false} ClosedIsFinal(n: nat, events: seq<Event>, more: seq<Event>, k: nat)
    requires k < |Exec(n, events).sessions| && Exec(n, events).sessions[k].closed
    ensures var s := Exec(n, events).sessions[k];
            && k < |Exec(n, events + more).sessions|
            && var s' := Exec(n, events + more).sessions[k]; s' == s.(ops := s'.ops)
  {
    hide Step, Inv;
    if more == [] {
      assert events + more == events;
    } else {
      var m := more[..|more| - 1];
      ClosedIsFinal(n, events, m, k);
      assert (events + more)[..|events + more| - 1] == events + m;
      AlwaysHolds(n, events + m);
      StepClosed(Exec(n, events + m), more[|more| - 1], k);
    }
  }

  // ------------------------------------------------------------ the upstream account

  /** What an event owes the server of session k: the id and the bytes. */
  function Owed(w: World, e: Event, k: nat): seq<(nat, string)>
    requires Inv(w)
  {
    match e
    case At(j, h) =>
      if j == k && k < |w.sessions| && IsArrival(w.sessions[k], h) && !h.seen
      then [(w.nextId, Serialize(h.request.message))] else []
    case RunPosted(t) =>
      if t < |w.tickets| && w.tickets[t].status == Posted(Forward) && w.tickets[t].sess == k < |w.sessions|
      then
        assert TicketOk(w, t);
        if w.sessions[k].closed then [] else [(w.tickets[t].id, Serialize(w.heap[w.tickets[t].ref]))]
      else []
    case _ => []
  }

  /** All that session k owes its server after a run, in order. */
  function Account(n: nat, events: seq<Event>, k: nat): seq<(nat, string)> {
    if events == [] then []
    else
      var before := events[..|events| - 1];
      AlwaysHolds(n, before);
      Account(n, before, k) + Owed(Exec(n, before), events[|events| - 1], k)
  }

  function Texts(a: seq<(nat, string)>): (t: seq<string>)
    ensures |t| == |a|
  {
    seq(|a|, i requires 0 <= i < |a| => a[i].1)
  }

  lemma TextsAdd(a: seq<(nat, string)>, b: seq<(nat, string)>)
    ensures Texts(a + b) == Texts(a) + Texts(b)
  {
  }

  lemma HandleUpstream(w: World, k: nat, h: Handler)
    requires Inv(w) && k < |w.sessions|
    ensures |Handle(w, k, h).sessions| == |w.sessions|
    ensures Upstream(Handle(w, k, h).sessions[k]) == Upstream(w.sessions[k]) + Texts(Owed(w, At(k, h), k))
  {
    var s := w.sessions[k];
    assert SessionOk(w, k);
    MoveFront(Upstream(s), []);
    hide SessionOk, SessionInv, Inv, Upstream, Downstream, Handled, Serialize;
    if IsArrival(s, h) { ArriveHandled(w, k, h); } else { HandledStep(w, s, h); }
  }

  lemma RunUpstream(w: World, t: nat)
    requires Inv(w) && Running(w, t)
    ensures var k := w.tickets[t].sess;
            Upstream(AfterRun(w, t)) == Upstream(w.sessions[k]) + Texts(Owed(w, RunPosted(t), k))
  {
    assert TicketOk(w, t);
    MoveFront(Upstream(w.sessions[w.tickets[t].sess]), []);
    hide SessionInv, Inv, Upstream, Downstream, Serialize, AfterRun, ErrorText, Busy;
    DecisionRuns(w, t);
  }

  lemma StepUpstream(w: World, e: Event, k: nat)
    requires Inv(w) && k < |w.sessions|
    ensures k < |Step(w, e).sessions|
    ensures Upstream(Step(w, e).sessions[k]) == Upstream(w.sessions[k]) + Texts(Owed(w, e, k))
  {
    MoveFront(Upstream(w.sessions[k]), []);
    hide Upstream, Handled, Serialize, OnDecision;
    match e {
      case At(j, h) => if j == k { HandleUpstream(w, k, h); }
      case RunPosted(t) =>
        if t < |w.tickets| && w.tickets[t].status.Posted? {
          assert TicketOk(w, t);
          if w.tickets[t].sess == k { RunUpstream(w, t); }
        }
      case TakeFront(_, _) =>
      case TakeAll(_, _) =>
      case Deliver(_) =>
      case Edit(_, _) =>
      case PlainRequest(_, _, _) =>
      case PlainClose(_) =>
    }
  }

  /** The bytes queued for the server, written or not, are exactly the account. */
  lemma {:induction false} UpstreamBytes(n: nat, events: seq<Event>, k: nat)
    requires k < n
    ensures |Exec(n, events).sessions| == n
    ensures Upstream(Exec(n, events).sessions[k]) == Texts(Account(n, events, k))
  {
    SessionsStay(n, events);
    hide Step, Inv, Owed, Texts;
    if events == [] {
      assert Exec(n, []).sessions[k] == STARTED;
      assert Texts([]) == [];
    } else {
      var before := events[..|events| - 1];
      UpstreamBytes(n, before, k);
      AlwaysHolds(n, before);
      hide Upstream;
      StepUpstream(Exec(n, before), events[|events| - 1], k);
      TextsAdd(Account(n, before, k), Owed(Exec(n, before), events[|events| - 1], k));
    }
  }
}
