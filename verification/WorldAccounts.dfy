/** Which requests are in a session's upstream account, and what else is conserved. */
module WorldAccounts {
  import opened HttpRequests
  import opened MitmSpec
  import opened World
  import opened WorldSteps
  import opened WorldRuns

  predicate InAccount(acc: seq<(nat, string)>, id: nat) {
    exists i | 0 <= i < |acc| :: acc[i].0 == id
  }

  ghost predicate Ticketed(ts: seq<Ticket>, id: nat) {
    exists t | 0 <= t < |ts| :: ts[t].id == id
  }

  predicate Ascending(acc: seq<(nat, string)>) {
    forall i, j | 0 <= i < j < |acc| :: acc[i].0 < acc[j].0
  }

  predicate AllBelow(acc: seq<(nat, string)>, id: nat) {
    forall i | 0 <= i < |acc| :: acc[i].0 < id
  }

  /** A ticket in the account was forwarded; a forwarded ticket of an open session is
      in the account. */
  ghost predicate TicketsAgree(w: World, k: nat, acc: seq<(nat, string)>)
    requires k < |w.sessions|
  {
    forall t | 0 <= t < |w.tickets| && w.tickets[t].sess == k ::
      && (InAccount(acc, w.tickets[t].id) ==> w.tickets[t].status == Ran(Forward))
      && (w.tickets[t].status == Ran(Forward) && !w.sessions[k].closed ==> InAccount(acc, w.tickets[t].id))
  }

  /** A request of this session that was never intercepted is in the account. */
  ghost predicate DrawsAgree(w: World, k: nat, acc: seq<(nat, string)>) {
    forall i | 0 <= i < |w.draws| && w.draws[i].1.sess == k ::
      Ticketed(w.tickets, i + 1) || InAccount(acc, i + 1)
  }

  predicate AllDrawn(w: World, k: nat, acc: seq<(nat, string)>) {
    forall i | 0 <= i < |acc| ::
      1 <= acc[i].0 <= |w.draws| && w.draws[acc[i].0 - 1].1.sess == k
  }

  ghost predicate AccountOk(w: World, k: nat, acc: seq<(nat, string)>)
    requires k < |w.sessions|
  {
    && Ascending(acc) && AllDrawn(w, k, acc) && TicketsAgree(w, k, acc) && DrawsAgree(w, k, acc)
    && (Deciding(w.sessions[k]) ==> AllBelow(acc, w.sessions[k].cur.id))
  }

  lemma InLonger(acc: seq<(nat, string)>, x: (nat, string), id: nat)
    ensures InAccount(acc + [x], id) <==> InAccount(acc, id) || x.0 == id
  {
    var more := acc + [x];
    if InAccount(acc, id) {
      var i: nat :| i < |acc| && acc[i].0 == id;
      assert more[i].0 == id;
    }
    assert more[|acc|] == x;
  }

  /** The step leaves this session's account alone; tickets may move on, and the
      session may close. */
  lemma NothingOwed(w: World, v: World, k: nat, acc: seq<(nat, string)>)
    requires k < |w.sessions| && k < |v.sessions| && AccountOk(w, k, acc)
    requires v.draws == w.draws && |v.tickets| == |w.tickets|
    requires forall t | 0 <= t < |w.tickets| ::
               v.tickets[t].id == w.tickets[t].id && v.tickets[t].sess == w.tickets[t].sess
               && (w.tickets[t].sess == k ==>
                     || (v.tickets[t].status == Ran(Forward) <==> w.tickets[t].status == Ran(Forward))
                     || (v.sessions[k].closed && !InAccount(acc, w.tickets[t].id)))
    requires w.sessions[k].closed ==> v.sessions[k].closed
    requires Deciding(v.sessions[k]) ==> Deciding(w.sessions[k]) && v.sessions[k].cur.id == w.sessions[k].cur.id
    ensures AccountOk(v, k, acc)
  {
    hide InAccount, Deciding;
    forall i | 0 <= i < |v.draws| && v.draws[i].1.sess == k
      ensures Ticketed(v.tickets, i + 1) || InAccount(acc, i + 1) {
      if Ticketed(w.tickets, i + 1) {
        var t :| 0 <= t < |w.tickets| && w.tickets[t].id == i + 1;
        assert v.tickets[t].id == i + 1;
      }
    }
  }

  lemma ArrivalOfOther(w: World, j: nat, h: Handler, k: nat, acc: seq<(nat, string)>)
    requires Inv(w) && k < |w.sessions| && AccountOk(w, k, acc)
    requires j < |w.sessions| && IsArrival(w.sessions[j], h) && j != k
    ensures AccountOk(Arrive(w, j, h), k, acc)
  {
    var v := Arrive(w, j, h);
    assert v.sessions[k] == w.sessions[k];
    hide InAccount, Handled, Inv;
    TicketsKept(w.tickets, v.tickets);
  }

  lemma TicketsKept(ts: seq<Ticket>, ts': seq<Ticket>)
    requires |ts| <= |ts'| && forall t | 0 <= t < |ts| :: ts'[t].id == ts[t].id
    ensures forall id: nat | Ticketed(ts, id) :: Ticketed(ts', id)
  {
    forall id: nat | Ticketed(ts, id) ensures Ticketed(ts', id) {
      var t :| 0 <= t < |ts| && ts[t].id == id;
      assert ts'[t].id == id;
    }
  }

  lemma NotYetDrawn(w: World, k: nat, acc: seq<(nat, string)>)
    requires Inv(w) && k < |w.sessions| && AllDrawn(w, k, acc)
    ensures AllBelow(acc, w.nextId) && !InAccount(acc, w.nextId)
    ensures forall t | 0 <= t < |w.tickets| :: w.tickets[t].id < w.nextId
  {
    forall t | 0 <= t < |w.tickets| ensures w.tickets[t].id < w.nextId { assert TicketOk(w, t); }
  }

  lemma OwnIntercepted(w: World, k: nat, h: Handler, acc: seq<(nat, string)>)
    requires Inv(w) && k < |w.sessions| && AccountOk(w, k, acc) && IsArrival(w.sessions[k], h) && h.seen
    ensures AccountOk(Arrive(w, k, h), k, acc)
  {
    var v := Arrive(w, k, h);
    ArriveHandled(w, k, h);
    NotYetDrawn(w, k, acc);
    TicketsKept(w.tickets, v.tickets);
    hide Handled, Inv, Serialize, Upstream, Downstream, SessionInv, Busy, InAccount;
    assert v.tickets[|w.tickets|].id == w.nextId;
  }

  /** One more request in the account: its ticket, if any, has just run. */
  ghost predicate OneMore(w: World, v: World, k: nat, x: (nat, string))
    requires k < |w.sessions| && k < |v.sessions|
  {
    && |w.draws| <= |v.draws| && v.draws[..|w.draws|] == w.draws && AllDrawn(v, k, [x])
    && (|v.draws| == |w.draws| || |v.draws| == |w.draws| + 1 == x.0)
    && |v.tickets| == |w.tickets|
    && (forall t | 0 <= t < |w.tickets| ::
          && v.tickets[t].id == w.tickets[t].id && v.tickets[t].sess == w.tickets[t].sess
          && v.tickets[t].status == (if w.tickets[t].id == x.0 then Ran(Forward) else w.tickets[t].status))
    && !w.sessions[k].closed && !Deciding(v.sessions[k])
  }

  lemma OneMoreTickets(w: World, v: World, k: nat, acc: seq<(nat, string)>, x: (nat, string))
    requires k < |w.sessions| && k < |v.sessions| && TicketsAgree(w, k, acc) && OneMore(w, v, k, x)
    ensures TicketsAgree(v, k, acc + [x])
  {
    forall id: nat ensures InAccount(acc + [x], id) <==> InAccount(acc, id) || id == x.0 { InLonger(acc, x, id); }
    hide InAccount, Deciding;
  }

  lemma OneMoreDraws(w: World, v: World, k: nat, acc: seq<(nat, string)>, x: (nat, string))
    requires k < |w.sessions| && k < |v.sessions| && DrawsAgree(w, k, acc) && OneMore(w, v, k, x)
    ensures DrawsAgree(v, k, acc + [x])
  {
    forall id: nat ensures InAccount(acc + [x], id) <==> InAccount(acc, id) || id == x.0 { InLonger(acc, x, id); }
    TicketsKept(w.tickets, v.tickets);
    hide InAccount, Deciding, Ticketed;
    forall i | 0 <= i < |w.draws| ensures v.draws[i] == w.draws[i] { assert v.draws[..|w.draws|][i] == w.draws[i]; }
  }

  lemma OneMoreDrawn(w: World, v: World, k: nat, acc: seq<(nat, string)>, x: (nat, string))
    requires k < |w.sessions| && k < |v.sessions| && AllDrawn(w, k, acc) && OneMore(w, v, k, x)
    ensures AllDrawn(v, k, acc + [x])
  {
    assert [x][0] == x;
    forall i | 0 <= i < |w.draws| ensures v.draws[i] == w.draws[i] { assert v.draws[..|w.draws|][i] == w.draws[i]; }
    hide Deciding, Ticketed, OneMore;
  }

  lemma OneMoreAccount(w: World, v: World, k: nat, acc: seq<(nat, string)>, x: (nat, string))
    requires k < |w.sessions| && k < |v.sessions| && AccountOk(w, k, acc) && OneMore(w, v, k, x) && AllBelow(acc, x.0)
    ensures AccountOk(v, k, acc + [x])
  {
    OneMoreTickets(w, v, k, acc, x);
    OneMoreDraws(w, v, k, acc, x);
    OneMoreDrawn(w, v, k, acc, x);
    hide TicketsAgree, DrawsAgree, AllDrawn;
  }

  lemma OwnForwarded(w: World, k: nat, h: Handler, acc: seq<(nat, string)>)
    requires Inv(w) && k < |w.sessions| && AccountOk(w, k, acc) && IsArrival(w.sessions[k], h) && !h.seen
    ensures AccountOk(Arrive(w, k, h), k, acc + [(w.nextId, Serialize(h.request.message))])
  {
    var v, x := Arrive(w, k, h), (w.nextId, Serialize(h.request.message));
    ArriveHandled(w, k, h);
    NotYetDrawn(w, k, acc);
    hide Handled, Inv, Serialize, Upstream, Downstream, SessionInv, Busy, AccountOk;
    assert OneMore(w, v, k, x);
    OneMoreAccount(w, v, k, acc, x);
  }

  lemma RunOwesText(w: World, t: nat, acc: seq<(nat, string)>)
    requires Inv(w) && Running(w, t) && AccountOk(w, w.tickets[t].sess, acc)
    requires !w.sessions[w.tickets[t].sess].closed && w.tickets[t].status.a == Forward
    ensures w.tickets[t].ref < |w.heap|
    ensures var x := w.tickets[t];
            AccountOk(RunDecision(w, t), x.sess, acc + [(x.id, Serialize(w.heap[x.ref]))])
  {
    var k, v, x := w.tickets[t].sess, RunDecision(w, t), w.tickets[t];
    DecisionIsCurrent(w, t);
    var y := (x.id, Serialize(w.heap[x.ref]));
    RunDecided(w, t, y);
    RunOnlyTicket(w, t);
    hide TicketsAgree, DrawsAgree, AllDrawn, Inv, Deciding, Serialize, RunDecision;
    OneMoreAccount(w, v, k, acc, y);
  }

  lemma RunDecided(w: World, t: nat, y: (nat, string))
    requires Inv(w) && Running(w, t) && !w.sessions[w.tickets[t].sess].closed && y.0 == w.tickets[t].id
    ensures var v, k := RunDecision(w, t), w.tickets[t].sess;
            v.draws == w.draws && |v.sessions| == |w.sessions| && !Deciding(v.sessions[k]) && AllDrawn(v, k, [y])
            && Deciding(w.sessions[k]) && w.sessions[k].cur.id == w.tickets[t].id
  {
    TicketDrawn(w, t, y);
    RunLeaves(w, t);
    RunDecides(w, t);
    DecisionIsCurrent(w, t);
    hide Inv, SessionInv, RunDecision, AllDrawn, Current;
  }

  /** After the continuation of an open session nothing is being decided there. */
  lemma RunDecides(w: World, t: nat)
    requires Inv(w) && Running(w, t) && !w.sessions[w.tickets[t].sess].closed
    ensures w.sessions[w.tickets[t].sess].ops.decision == 1 && AfterRun(w, t).ops.decision == 0
  {
    OpenRuns(w, t);
    DecisionRuns(w, t);
    hide Inv, SessionInv, Upstream, Downstream, Serialize, ErrorText, Busy, OnDecision, AfterRun, Running;
  }

  lemma RunLeaves(w: World, t: nat)
    requires Running(w, t)
    ensures RunDecision(w, t).draws == w.draws && |RunDecision(w, t).sessions| == |w.sessions|
  {
    hide OnDecision;
  }

  lemma TicketDrawn(w: World, t: nat, y: (nat, string))
    requires Inv(w) && Running(w, t) && y.0 == w.tickets[t].id
    ensures AllDrawn(RunDecision(w, t), w.tickets[t].sess, [y])
  {
    RunLeaves(w, t);
    hide RunDecision;
    assert TicketOk(w, t);
  }

  lemma OwnRun(w: World, t: nat, acc: seq<(nat, string)>)
    requires Inv(w) && Running(w, t) && AccountOk(w, w.tickets[t].sess, acc)
    ensures AccountOk(RunDecision(w, t), w.tickets[t].sess, acc + Owed(w, RunPosted(t), w.tickets[t].sess))
  {
    hide AccountOk, Inv, Serialize, RunDecision;
    if w.sessions[w.tickets[t].sess].closed || w.tickets[t].status.a == Drop {
      assert acc + [] == acc;
      RunOwesNothing(w, t, acc);
    } else {
      RunOwesText(w, t, acc);
    }
  }

  lemma RunOnlyTicket(w: World, t: nat)
    requires Inv(w) && Running(w, t)
    ensures forall i | 0 <= i < |w.tickets| :: w.tickets[i].id == w.tickets[t].id <==> i == t
    ensures RunDecision(w, t).tickets == w.tickets[t := w.tickets[t].(status := Ran(w.tickets[t].status.a))]
  {
  }

  lemma RunOwesNothing(w: World, t: nat, acc: seq<(nat, string)>)
    requires Inv(w) && Running(w, t) && AccountOk(w, w.tickets[t].sess, acc)
    requires w.sessions[w.tickets[t].sess].closed || w.tickets[t].status.a == Drop
    ensures AccountOk(RunDecision(w, t), w.tickets[t].sess, acc)
  {
    var k := w.tickets[t].sess;
    DecisionRuns(w, t);
    assert !InAccount(acc, w.tickets[t].id);
    hide SessionInv, Busy, Upstream, Downstream, OnDecision, Inv, InAccount, AccountOk;
    NothingOwed(w, RunDecision(w, t), k, acc);
  }

  lemma RunOfOther(w: World, t: nat, k: nat, acc: seq<(nat, string)>)
    requires Inv(w) && t < |w.tickets| && w.tickets[t].status.Posted?
    requires k < |w.sessions| && k != w.tickets[t].sess && AccountOk(w, k, acc)
    ensures AccountOk(RunDecision(w, t), k, acc)
  {
    var v := RunDecision(w, t);
    hide Inv, InAccount, AccountOk, OnDecision;
    assert v.sessions[k] == w.sessions[k];
    NothingOwed(w, v, k, acc);
  }

  lemma QueueAccount(w: World, ts': seq<Ticket>, k: nat, acc: seq<(nat, string)>)
    requires k < |w.sessions| && AccountOk(w, k, acc) && Moved(w.tickets, ts')
    ensures AccountOk(w.(tickets := ts'), k, acc)
  {
    hide InAccount, AccountOk;
    forall t | 0 <= t < |w.tickets| ensures ts'[t].status == Ran(Forward) <==> w.tickets[t].status == Ran(Forward) {
      assert ts'[t] == w.tickets[t].(status := ts'[t].status);
    }
    NothingOwed(w, w.(tickets := ts'), k, acc);
  }

  lemma PlainAccount(w: World, m: nat, req: HttpRequest, seen: bool, k: nat, acc: seq<(nat, string)>)
    requires Inv(w) && k < |w.sessions| && AccountOk(w, k, acc) && m >= |w.sessions|
    ensures AccountOk(PlainArrive(w, m, req, seen), k, acc)
  {
    TicketsKept(w.tickets, PlainArrive(w, m, req, seen).tickets);
    hide InAccount, Inv;
  }

  lemma PlainCloseAccount(w: World, id: nat, k: nat, acc: seq<(nat, string)>)
    requires Inv(w) && k < |w.sessions| && AccountOk(w, k, acc) && PlainDrew(w, id)
    ensures AccountOk(w.(tickets := RemovedById(w.tickets, id)), k, acc)
  {
    var v := w.(tickets := RemovedById(w.tickets, id));
    forall t | 0 <= t < |w.tickets| ensures w.tickets[t].sess == k ==> v.tickets[t] == w.tickets[t] {
      PlainRemoves(w, id, t);
    }
    hide InAccount, AccountOk, Inv, Deciding;
    NothingOwed(w, v, k, acc);
  }

  lemma HandleAccount(w: World, j: nat, h: Handler, k: nat, acc: seq<(nat, string)>)
    requires Inv(w) && j < |w.sessions| && k < |w.sessions| && AccountOk(w, k, acc)
    ensures AccountOk(Handle(w, j, h), k, acc + Owed(w, At(j, h), k))
  {
    assert SessionOk(w, j);
    assert acc + [] == acc;
    hide AccountOk, Inv, Arrive, Put, SessionOk, Serialize, Handled, SessionInv, Keeps, Downstream;
    if IsArrival(w.sessions[j], h) {
      if j != k { ArrivalOfOther(w, j, h, k, acc); }
      else if h.seen { OwnIntercepted(w, k, h, acc); }
      else { OwnForwarded(w, k, h, acc); }
    } else {
      HandledStep(w, w.sessions[j], h);
      PutAccount(w, j, Handled(w, w.sessions[j], h), k, acc);
    }
  }

  lemma PutAccount(w: World, j: nat, s': Session, k: nat, acc: seq<(nat, string)>)
    requires Inv(w) && j < |w.sessions| && k < |w.sessions| && AccountOk(w, k, acc)
    requires SessionInv(s') && Keeps(w.sessions[j], s')
    ensures AccountOk(Put(w, j, s'), k, acc)
  {
    var v := Put(w, j, s');
    assert SessionOk(w, j);
    BusyDeciding(s');
    hide AccountOk, Inv, InAccount, SessionInv, Upstream, SessionOk;
    NothingOwed(w, v, k, acc);
  }

  lemma StepAccount(w: World, e: Event, k: nat, acc: seq<(nat, string)>)
    requires Inv(w) && k < |w.sessions| && AccountOk(w, k, acc)
    ensures k < |Step(w, e).sessions| && AccountOk(Step(w, e), k, acc + Owed(w, e, k))
  {
    assert acc + [] == acc;
    hide AccountOk, InAccount, Moved, TookFront, TookAll, Delivered, RemovedById, Handled, OnDecision, Serialize,
         Deciding;
    match e {
      case At(j, h) => if j < |w.sessions| { HandleAccount(w, j, h, k, acc); }
      case RunPosted(t) =>
        if t < |w.tickets| && w.tickets[t].status.Posted? {
          assert TicketOk(w, t);
          if w.tickets[t].sess == k { OwnRun(w, t, acc); } else { RunOfOther(w, t, k, acc); }
        }
      case TakeFront(th, a) => TakingMoves(w.tickets, th, a); QueueAccount(w, TookFront(w.tickets, th, a), k, acc);
      case TakeAll(th, a) => TakingMoves(w.tickets, th, a); QueueAccount(w, TookAll(w.tickets, th, a), k, acc);
      case Deliver(th) => TakingMoves(w.tickets, th, Drop); QueueAccount(w, Delivered(w.tickets, th), k, acc);
      case Edit(ref, req) => NothingOwed(w, Step(w, e), k, acc);
      case PlainRequest(m, req, seen) => PlainAccount(w, |w.sessions| + m, req, seen, k, acc);
      case PlainClose(id) => if PlainDrew(w, id) { PlainCloseAccount(w, id, k, acc); }
    }
  }

  /** Over every run the account lists each request once, in the order of arrival;
      every intercepted one in it was forwarded, and while the session is open every
      forwarded one and every one that was not intercepted is in it. */
  lemma {:induction false} AccountIs(n: nat, events: seq<Event>, k: nat)
    requires k < n
    ensures |Exec(n, events).sessions| == n
    ensures AccountOk(Exec(n, events), k, Account(n, events, k))
  {
    SessionsStay(n, events);
    if events == [] {
      assert !Deciding(STARTED) by { StartedIdle(); }
      assert Exec(n, events).sessions[k] == STARTED;
    } else {
      hide Step, Inv, Owed, AccountOk;
      var before := events[..|events| - 1];
      AccountIs(n, before, k);
      AlwaysHolds(n, before);
      StepAccount(Exec(n, before), events[|events| - 1], k, Account(n, before, k));
    }
  }

  /** The requests whose bytes reached the server's queue, while the session is open. */
  lemma {:induction false} SentExactly(n: nat, events: seq<Event>, k: nat, id: nat)
    requires k < n && |Exec(n, events).sessions| == n && !Exec(n, events).sessions[k].closed
    requires exists ref: nat :: Drawn(Exec(n, events), id, k, ref)
    ensures var ts := Exec(n, events).tickets;
            InAccount(Account(n, events, k), id) <==>
            !Ticketed(ts, id) || exists t | 0 <= t < |ts| :: ts[t].id == id && ts[t].status == Ran(Forward)
  {
    var w := Exec(n, events);
    AccountIs(n, events, k);
    AlwaysHolds(n, events);
    hide Exec, Account, InAccount;
    assert w.draws[id - 1].1.sess == k;
    forall t | 0 <= t < |w.tickets| && w.tickets[t].id == id ensures w.tickets[t].sess == k {
      assert TicketOk(w, t);
    }
  }
}
