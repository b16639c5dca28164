/** Every step of the whole system keeps the invariant. */
module WorldSteps {
  import opened HttpRequests
  import opened MitmSpec
  import opened MitmSteps
  import opened World

  // ------------------------------------------------------------- draws are unique

  lemma DrawnOnce(w: World, id: nat, k1: nat, r1: nat, k2: nat, r2: nat)
    requires Drawn(w, id, k1, r1) && Drawn(w, id, k2, r2)
    ensures k1 == k2 && r1 == r2
  {
  }

  /** Ids and request objects only ever accumulate. */
  predicate Grown(w: World, w': World) {
    |w.draws| <= |w'.draws| && w'.draws[..|w.draws|] == w.draws && |w.heap| <= |w'.heap|
  }

  lemma DrawnStays(w: World, w': World, id: nat, k: nat, ref: nat)
    requires Grown(w, w') && Drawn(w, id, k, ref)
    ensures Drawn(w', id, k, ref)
  {
    assert w'.draws[..|w.draws|][id - 1] == w.draws[id - 1];
  }

  // -------------------------------------------- a handler that keeps to its session

  lemma ClosingRemoves(w: World, k: nat, s': Session, t: nat)
    requires Inv(w) && k < |w.sessions| && Keeps(w.sessions[k], s') && t < |w.tickets|
    requires !w.sessions[k].closed && s'.closed
    ensures var x, y := w.tickets[t], Put(w, k, s').tickets[t];
            y == (if x.status.Queued? && x.sess == k then x.(status := Removed) else x)
  {
    assert SessionOk(w, k) && TicketOk(w, t);
    var x := w.tickets[t];
    assert s'.cur.id == w.sessions[k].cur.id;
    if x.status.Queued? && x.id == s'.cur.id {
      DrawnOnce(w, x.id, x.sess, x.ref, k, s'.cur.ref);
    }
  }

  lemma PutOther(w: World, k: nat, s': Session, j: nat)
    requires Inv(w) && k < |w.sessions| && Keeps(w.sessions[k], s') && j < |w.sessions| && j != k
    ensures SessionOk(Put(w, k, s'), j)
  {
    assert SessionOk(w, j);
    var s, z, v := w.sessions[k], w.sessions[j], Put(w, k, s');
    if Deciding(z) && !s.closed && s'.closed {
      assert TicketOk(w, z.ticket);
      ClosingRemoves(w, k, s', z.ticket);
    }
    hide SessionInv, Keeps, Inv, Busy, Deciding, DistinctReports;
    assert |v.tickets| == |w.tickets|;
    assert v.draws == w.draws && v.heap == w.heap && v.sessions[j] == z;
  }

  lemma PutReports(w: World, k: nat, s: Session, s': Session)
    requires ReportsOk(w, k, s) && Keeps(s, s')
    ensures ReportsOk(w, k, s')
  {
    hide Upstream, Drawn, Busy;
  }

  lemma PutWaits(ts: seq<Ticket>, k: nat, s: Session, s': Session)
    requires WaitsOnTicket(ts, k, s) && Keeps(s, s') && SessionInv(s')
    ensures WaitsOnTicket(ts, k, s')
  {
    BusyDeciding(s');
    hide Upstream, SessionInv;
  }

  lemma PutSelf(w: World, k: nat, s': Session)
    requires Inv(w) && k < |w.sessions| && SessionInv(s') && Keeps(w.sessions[k], s')
    ensures SessionOk(Put(w, k, s'), k)
  {
    var s, v := w.sessions[k], Put(w, k, s');
    assert SessionOk(w, k);
    PutReports(w, k, s, s');
    PutWaits(w.tickets, k, s, s');
    hide SessionInv, Inv, Busy, Keeps, DistinctReports;
    assert v.draws == w.draws && v.heap == w.heap && v.sessions[k] == s';
    assert Deciding(s') ==> v.tickets == w.tickets;
  }

  lemma PutSession(w: World, k: nat, s': Session, j: nat)
    requires Inv(w) && k < |w.sessions| && SessionInv(s') && Keeps(w.sessions[k], s') && j < |w.sessions|
    ensures SessionOk(Put(w, k, s'), j)
  {
    hide *;
    if j == k { PutSelf(w, k, s'); } else { PutOther(w, k, s', j); }
  }

  lemma PutTicket(w: World, k: nat, s': Session, t: nat)
    requires Inv(w) && k < |w.sessions| && SessionInv(s') && Keeps(w.sessions[k], s') && t < |w.tickets|
    ensures TicketOk(Put(w, k, s'), t)
  {
    assert TicketOk(w, t) && SessionOk(w, k);
    if !w.sessions[k].closed && s'.closed {
      ClosingRemoves(w, k, s', t);
    }
  }

  lemma PutKeeps(w: World, k: nat, s': Session)
    requires Inv(w) && k < |w.sessions| && SessionInv(s') && Keeps(w.sessions[k], s')
    ensures Inv(Put(w, k, s'))
  {
    hide SessionInv, Keeps, SessionOk, TicketOk;
    var v := Put(w, k, s');
    forall j: nat | j < |v.sessions| ensures SessionOk(v, j) { PutSession(w, k, s', j); }
    forall t: nat | t < |v.tickets| ensures TicketOk(v, t) { PutTicket(w, k, s', t); }
  }

  lemma Unchanged(s: Session)
    requires SessionInv(s)
    ensures Good(s, s, [])
  {
    MoveFront(Downstream(s), []);
  }

  /** What a handler sends to the client. */
  function Chunks(s: Session, h: Handler): seq<string> {
    if h.UpstreamRead? && s.ops.upstreamRead > 0 && !s.closed && h.ec == Ok then [h.data] else []
  }

  lemma HandledStep(w: World, s: Session, h: Handler)
    requires SessionInv(s) && !IsArrival(s, h)
    ensures Good(s, Handled(w, s, h), Chunks(s, h))
  {
    hide SessionInv, Good, OnResolved, OnConnected, OnEstablished, OnRawErrorWritten, OnClientHandshake,
         OnUpstreamHandshake, OnClientRead, OnUpstreamWritten, OnUpstreamRead, OnClientWritten, Close;
    Unchanged(s);
    match h
    case Resolved(ec) => if s.ops.resolve > 0 { ResolvedStep(s, ec); }
    case Connected(ec) => if s.ops.connect > 0 { ConnectedStep(s, ec); }
    case Established(ec, ctx) => if s.ops.established > 0 { EstablishedStep(s, ec, ctx); }
    case RawErrorWritten => if s.ops.rawError > 0 { RawErrorStep(s); }
    case ClientHandshake(ec) => if s.ops.clientHs > 0 { ClientHandshakeStep(s, ec); }
    case UpstreamHandshake(ec) => if s.ops.upstreamHs > 0 { UpstreamHandshakeStep(s, ec); }
    case ClientRead(ec, data, req, seen) =>
      if s.ops.clientRead > 0 { ClientReadStep(s, ec, data, req, seen, w.nextId, |w.heap|, |w.tickets|); }
    case UpstreamWritten(ec) => if s.ops.upstreamWrite > 0 { UpstreamWrittenStep(s, ec); }
    case UpstreamRead(ec, data, res) => if s.ops.upstreamRead > 0 { UpstreamReadStep(s, ec, data, res, Current(w, s)); }
    case ClientWritten(ec) => if s.ops.clientWrite > 0 { ClientWrittenStep(s, ec); }
    case TimerFired => TimeoutStep(s);
  }

  // -------------------------------------------------------------------- an arrival

  /** An accepted request as the session sees it. */
  lemma ArriveHandled(w: World, k: nat, h: Handler)
    requires Inv(w) && k < |w.sessions| && IsArrival(w.sessions[k], h)
    ensures var s, s' := w.sessions[k], Arrive(w, k, h).sessions[k];
            && SessionInv(s') && !s'.closed && Busy(s')
            && s'.cur == Txn(w.nextId, true, |w.heap|, false) && s'.reports == s.reports
            && s'.ops.decision == (if h.seen then 1 else 0) && (h.seen ==> s'.ticket == |w.tickets|)
            && Upstream(s') == Upstream(s) + (if h.seen then [] else [Serialize(h.request.message)])
            && Downstream(s') == Downstream(s)
  {
    assert SessionOk(w, k);
    hide OnClientRead, SessionInv, Serialize;
    ArrivalStep(w.sessions[k], h.data, h.request.message, h.seen, w.nextId, |w.heap|, |w.tickets|);
  }

  lemma ArriveGrows(w: World, k: nat, h: Handler)
    requires k < |w.sessions| && IsArrival(w.sessions[k], h)
    ensures Grown(w, Arrive(w, k, h))
  {
  }

  lemma ArriveSelf(w: World, k: nat, h: Handler)
    requires Inv(w) && k < |w.sessions| && IsArrival(w.sessions[k], h)
    ensures SessionOk(Arrive(w, k, h), k)
  {
    var s, v := w.sessions[k], Arrive(w, k, h);
    ArriveHandled(w, k, h);
    ArriveGrows(w, k, h);
    assert SessionOk(w, k);
    hide OnClientRead, SessionInv, Serialize, Upstream, Downstream, Handled;
    assert Drawn(v, w.nextId, k, |w.heap|);
    forall j: nat | j < |s.reports| && s.reports[j].id != 0
      ensures Drawn(v, s.reports[j].id, k, s.reports[j].ref) && s.reports[j].id != w.nextId {
      DrawnStays(w, v, s.reports[j].id, k, s.reports[j].ref);
    }
  }

  lemma ArriveOther(w: World, k: nat, h: Handler, j: nat)
    requires Inv(w) && k < |w.sessions| && IsArrival(w.sessions[k], h) && j < |w.sessions| && j != k
    ensures SessionOk(Arrive(w, k, h), j)
  {
    var s, v := w.sessions[j], Arrive(w, k, h);
    ArriveGrows(w, k, h);
    assert SessionOk(w, j);
    hide SessionInv, Handled;
    if s.cur.id != 0 { DrawnStays(w, v, s.cur.id, j, s.cur.ref); }
    forall i: nat | i < |s.reports| && s.reports[i].id != 0
      ensures Drawn(v, s.reports[i].id, j, s.reports[i].ref) {
      DrawnStays(w, v, s.reports[i].id, j, s.reports[i].ref);
    }
  }

  lemma ArriveTicket(w: World, k: nat, h: Handler, t: nat)
    requires Inv(w) && k < |w.sessions| && IsArrival(w.sessions[k], h) && t < |Arrive(w, k, h).tickets|
    ensures TicketOk(Arrive(w, k, h), t)
  {
    var v := Arrive(w, k, h);
    ArriveHandled(w, k, h);
    ArriveGrows(w, k, h);
    assert SessionOk(w, k);
    assert !Deciding(w.sessions[k]);
    hide Upstream, Downstream, Handled, Busy;
    if t < |w.tickets| {
      var x := w.tickets[t];
      assert TicketOk(w, t);
      DrawnStays(w, v, x.id, x.sess, x.ref);
    }
  }

  lemma ArriveDistinct(w: World, k: nat, h: Handler)
    requires Inv(w) && k < |w.sessions| && IsArrival(w.sessions[k], h)
    ensures DistinctTickets(Arrive(w, k, h).tickets) && DrawsOk(Arrive(w, k, h))
  {
    forall i: nat | i < |w.tickets| ensures w.tickets[i].id < w.nextId { assert TicketOk(w, i); }
  }

  lemma ArriveKeeps(w: World, k: nat, h: Handler)
    requires Inv(w) && k < |w.sessions| && IsArrival(w.sessions[k], h)
    ensures Inv(Arrive(w, k, h))
  {
    var v := Arrive(w, k, h);
    ArriveDistinct(w, k, h);
    hide SessionOk, TicketOk, Handled, DrawsOk, DistinctTickets;
    forall j: nat | j < |v.sessions| ensures SessionOk(v, j) {
      if j == k { ArriveSelf(w, k, h); } else { ArriveOther(w, k, h, j); }
    }
    forall t: nat | t < |v.tickets| ensures TicketOk(v, t) { ArriveTicket(w, k, h, t); }
  }

  // ------------------------------------------------------------- a decision is run

  predicate Running(w: World, t: nat) {
    t < |w.tickets| && w.tickets[t].status.Posted? && w.tickets[t].sess < |w.sessions|
  }

  /** The continuation of an open session's ticket finds that ticket's request. */
  lemma DecisionIsCurrent(w: World, t: nat)
    requires Inv(w) && Running(w, t) && !w.sessions[w.tickets[t].sess].closed
    ensures var x := w.tickets[t]; var s := w.sessions[x.sess];
            && s.ops.decision == 1 && s.ticket == t && s.cur.id == x.id && s.cur.ref == x.ref
            && x.ref < |w.heap| && Current(w, s) == w.heap[x.ref]
  {
    assert TicketOk(w, t);
    assert SessionOk(w, w.tickets[t].sess);
  }

  /** The session after the continuation of ticket t. */
  function AfterRun(w: World, t: nat): Session
    requires Running(w, t)
  {
    RunDecision(w, t).sessions[w.tickets[t].sess]
  }

  predicate RanClosed(s: Session, s': Session) {
    s'.closed && s' == s.(ops := s'.ops)
  }

  predicate RanForward(s: Session, s': Session, text: string) {
    && SessionInv(s') && !s'.closed && Busy(s') && s'.ops.decision == 0 && s'.cur == s.cur && s'.reports == s.reports
    && Upstream(s') == Upstream(s) + [text] && Downstream(s') == Downstream(s)
  }

  predicate RanDrop(s: Session, s': Session) {
    && SessionInv(s') && !s'.closed && !Busy(s') && s'.ops.decision == 0 && s'.closeAfterWrite
    && s'.cur.id == s.cur.id && s'.cur.ref == s.cur.ref && s'.reports == s.reports + [Report(s.cur.id, s.cur.ref)]
    && Upstream(s') == Upstream(s) && Downstream(s') == Downstream(s) + [ErrorText(DROPPED)]
  }

  lemma OpenRuns(w: World, t: nat)
    requires Inv(w) && Running(w, t) && !w.sessions[w.tickets[t].sess].closed
    ensures var s := w.sessions[w.tickets[t].sess];
            && SessionInv(s) && s.ops.decision == 1 && w.tickets[t].ref < |w.heap|
            && AfterRun(w, t) ==
                 OnDecision(s.(ops := s.ops.(decision := 0)), w.tickets[t].status.a, w.heap[w.tickets[t].ref])
  {
    var x := w.tickets[t];
    assert SessionOk(w, x.sess);
    DecisionIsCurrent(w, t);
    hide SessionInv, Inv, OnDecision, SessionOk;
  }

  /** What the continuation does to its session: a closed one stays as it was. */
  lemma DecisionRuns(w: World, t: nat)
    requires Inv(w) && Running(w, t)
    ensures var x, s' := w.tickets[t], AfterRun(w, t); var s := w.sessions[x.sess];
            if s.closed then RanClosed(s, s')
            else if x.status.a == Drop then RanDrop(s, s')
            else x.ref < |w.heap| && RanForward(s, s', Serialize(w.heap[x.ref]))
  {
    var x := w.tickets[t];
    var s := w.sessions[x.sess];
    if !s.closed {
      OpenRuns(w, t);
      DecisionIsCurrent(w, t);
      hide AfterRun, Inv, SessionInv, Serialize, ErrorText, Upstream, Downstream, Busy, OnDecision, Current, Running;
      if x.status.a == Forward { ForwardStep(s, w.heap[x.ref]); } else { DropStep(s, w.heap[x.ref]); }
    }
  }

  /** The same ids and request objects: only session k is judged anew. */
  lemma SessionMoves(w: World, v: World, k: nat)
    requires k < |w.sessions| == |v.sessions| && SessionOk(w, k) && v.draws == w.draws && |v.heap| == |w.heap|
    requires var s, s' := w.sessions[k], v.sessions[k];
             && SessionInv(s') && !Deciding(s') && s'.cur.id == s.cur.id && s'.cur.ref == s.cur.ref
             && ((s'.reports == s.reports && (Busy(s') ==> Busy(s)))
                 || (s'.reports == s.reports + [Report(s.cur.id, s.cur.ref)] && Busy(s) && !Busy(s')))
    ensures SessionOk(v, k)
  {
    hide SessionInv, Busy;
  }

  lemma RunSelf(w: World, t: nat)
    requires Inv(w) && Running(w, t)
    ensures SessionOk(RunDecision(w, t), w.tickets[t].sess)
  {
    var k := w.tickets[t].sess;
    var s := w.sessions[k];
    DecisionRuns(w, t);
    assert SessionOk(w, k);
    BusyDeciding(s);
    if s.closed {
      assert SessionInv(AfterRun(w, t));
    } else {
      DecisionIsCurrent(w, t);
    }
    hide Upstream, Downstream, Serialize, ErrorText, OnDecision, Inv, SessionOk, SessionInv;
    SessionMoves(w, RunDecision(w, t), k);
  }

  lemma BusyDeciding(s: Session)
    requires !s.closed ==> SessionInv(s)
    ensures Deciding(s) ==> Busy(s)
  {
  }

  lemma RunOther(w: World, t: nat, j: nat)
    requires Inv(w) && Running(w, t) && j < |w.sessions| && j != w.tickets[t].sess
    ensures SessionOk(RunDecision(w, t), j)
  {
    assert SessionOk(w, j);
    var v, x := RunDecision(w, t), w.tickets[t];
    hide SessionInv, OnDecision, Inv, Busy, DistinctReports;
    assert v.draws == w.draws && v.heap == w.heap && v.sessions[j] == w.sessions[j];
    assert forall i | 0 <= i < |w.tickets| && i != t :: v.tickets[i] == w.tickets[i];
  }

  lemma RunTicket(w: World, t: nat, i: nat)
    requires Inv(w) && Running(w, t) && i < |w.tickets|
    ensures TicketOk(RunDecision(w, t), i)
  {
    assert TicketOk(w, t) && TicketOk(w, i);
    DecisionRuns(w, t);
    hide SessionInv, Upstream, Downstream, Serialize, ErrorText, OnDecision;
  }

  /** A plain session's continuation: only its ticket moves on. */
  lemma PlainRunKeeps(w: World, t: nat)
    requires Inv(w) && t < |w.tickets| && w.tickets[t].status.Posted? && w.tickets[t].sess >= |w.sessions|
    ensures Inv(RunDecision(w, t))
  {
    var v := RunDecision(w, t);
    hide SessionInv, Busy;
    forall j: nat | j < |v.sessions| ensures SessionOk(v, j) { assert SessionOk(w, j); }
    forall i: nat | i < |v.tickets| ensures TicketOk(v, i) { assert TicketOk(w, i); }
  }

  lemma RunKeeps(w: World, t: nat)
    requires Inv(w) && t < |w.tickets| && w.tickets[t].status.Posted?
    ensures Inv(RunDecision(w, t))
  {
    if w.tickets[t].sess >= |w.sessions| {
      PlainRunKeeps(w, t);
      return;
    }
    var v := RunDecision(w, t);
    hide SessionOk, TicketOk, OnDecision;
    forall j: nat | j < |v.sessions| ensures SessionOk(v, j) {
      if j == w.tickets[t].sess { RunSelf(w, t); } else { RunOther(w, t, j); }
    }
    forall i: nat | i < |v.tickets| ensures TicketOk(v, i) { RunTicket(w, t, i); }
  }

  // ------------------------------------------------------- the intercept queue moves

  /** Tickets keep their data and no live ticket dies. */
  predicate Moved(ts: seq<Ticket>, ts': seq<Ticket>) {
    && |ts'| == |ts|
    && forall t | 0 <= t < |ts| ::
        && ts'[t] == ts[t].(status := ts'[t].status)
        && (Live(ts'[t].status) <==> Live(ts[t].status))
        && (!Live(ts[t].status) ==> ts'[t].status == ts[t].status)
        && (ts'[t].status.Queued? ==> ts[t].status.Queued?)
  }

  lemma TakingMoves(ts: seq<Ticket>, th: nat, a: Action)
    ensures Moved(ts, TookFront(ts, th, a)) && Moved(ts, TookAll(ts, th, a)) && Moved(ts, Delivered(ts, th))
  {
  }

  lemma QueueMoves(w: World, ts': seq<Ticket>)
    requires Inv(w) && Moved(w.tickets, ts')
    ensures Inv(w.(tickets := ts'))
  {
    var v := w.(tickets := ts');
    forall j: nat | j < |v.sessions| ensures SessionOk(v, j) { assert SessionOk(w, j); }
    forall t: nat | t < |v.tickets| ensures TicketOk(v, t) { assert TicketOk(w, t); }
  }

  // -------------------------------------------------------------------- every step

  lemma EditKeeps(w: World, ref: nat, req: HttpRequest)
    requires Inv(w) && ref < |w.heap|
    ensures Inv(w.(heap := w.heap[ref := req]))
  {
    var v := w.(heap := w.heap[ref := req]);
    forall j: nat | j < |v.sessions| ensures SessionOk(v, j) { assert SessionOk(w, j); }
    forall t: nat | t < |v.tickets| ensures TicketOk(v, t) { assert TicketOk(w, t); }
  }

  lemma PlainRemoves(w: World, id: nat, t: nat)
    requires Inv(w) && PlainDrew(w, id) && t < |w.tickets|
    ensures var x := w.tickets[t];
            || RemovedById(w.tickets, id)[t] == x
            || (x.sess >= |w.sessions| && x.id == id && RemovedById(w.tickets, id)[t] == x.(status := Removed))
  {
    assert TicketOk(w, t);
  }

  /** A plain session's close touches no HTTPS session's request. */
  lemma PlainCloseKeeps(w: World, id: nat)
    requires Inv(w) && PlainDrew(w, id)
    ensures Inv(w.(tickets := RemovedById(w.tickets, id)))
  {
    var v := w.(tickets := RemovedById(w.tickets, id));
    forall j: nat | j < |v.sessions| ensures SessionOk(v, j) {
      assert SessionOk(w, j);
      if Deciding(w.sessions[j]) { PlainRemoves(w, id, w.sessions[j].ticket); }
    }
    forall t: nat | t < |v.tickets| ensures TicketOk(v, t) {
      assert TicketOk(w, t);
      PlainRemoves(w, id, t);
    }
  }

  lemma PlainArriveKeeps(w: World, k: nat, req: HttpRequest, seen: bool)
    requires Inv(w) && k >= |w.sessions|
    ensures Inv(PlainArrive(w, k, req, seen))
  {
    var v := PlainArrive(w, k, req, seen);
    forall i: nat | i < |w.tickets| ensures w.tickets[i].id < w.nextId { assert TicketOk(w, i); }
    assert DistinctTickets(v.tickets) && DrawsOk(v);
    hide SessionInv, Busy, DrawsOk, DistinctTickets, Inv;
    forall j: nat | j < |v.sessions| ensures SessionOk(v, j) {
      PlainArriveSession(w, k, req, seen, j);
    }
    forall t: nat | t < |v.tickets| ensures TicketOk(v, t) {
      if t < |w.tickets| {
        var x := w.tickets[t];
        assert TicketOk(w, t);
        DrawnStays(w, v, x.id, x.sess, x.ref);
      } else {
        NewDraw(w, k, req, seen);
      }
    }
  }

  lemma NewDraw(w: World, k: nat, req: HttpRequest, seen: bool)
    requires DrawsOk(w)
    ensures Drawn(PlainArrive(w, k, req, seen), w.nextId, k, |w.heap|)
  {
  }

  lemma PlainArriveSession(w: World, k: nat, req: HttpRequest, seen: bool, j: nat)
    requires Inv(w) && k >= |w.sessions| && j < |w.sessions|
    ensures SessionOk(PlainArrive(w, k, req, seen), j)
  {
    var s, v := w.sessions[j], PlainArrive(w, k, req, seen);
    assert SessionOk(w, j);
    hide SessionInv, Busy, Inv;
    if s.cur.id != 0 { DrawnStays(w, v, s.cur.id, j, s.cur.ref); }
    forall i: nat | i < |s.reports| && s.reports[i].id != 0
      ensures Drawn(v, s.reports[i].id, j, s.reports[i].ref) {
      DrawnStays(w, v, s.reports[i].id, j, s.reports[i].ref);
    }
  }

  lemma StepKeeps(w: World, e: Event)
    requires Inv(w)
    ensures Inv(Step(w, e))
  {
    hide Inv, Handled, RunDecision, Arrive, Put, Moved, TookFront, TookAll, Delivered, RemovedById;
    match e
    case At(k, h) =>
      if k < |w.sessions| { HandleKeeps(w, k, h); }
    case RunPosted(t) =>
      if t < |w.tickets| && w.tickets[t].status.Posted? { RunKeeps(w, t); }
    case TakeFront(th, a) => TakingMoves(w.tickets, th, a); QueueMoves(w, TookFront(w.tickets, th, a));
    case TakeAll(th, a) => TakingMoves(w.tickets, th, a); QueueMoves(w, TookAll(w.tickets, th, a));
    case Deliver(th) => TakingMoves(w.tickets, th, Drop); QueueMoves(w, Delivered(w.tickets, th));
    case Edit(ref, req) => if ref < |w.heap| { EditKeeps(w, ref, req); }
    case PlainRequest(m, req, seen) => PlainArriveKeeps(w, |w.sessions| + m, req, seen);
    case PlainClose(id) => if PlainDrew(w, id) { PlainCloseKeeps(w, id); }
  }

  lemma HandleKeeps(w: World, k: nat, h: Handler)
    requires Inv(w) && k < |w.sessions|
    ensures Inv(Handle(w, k, h))
  {
    assert SessionOk(w, k);
    hide Inv, SessionOk, Handled, SessionInv, Keeps, Put, Arrive;
    if IsArrival(w.sessions[k], h) {
      ArriveKeeps(w, k, h);
    } else {
      HandledStep(w, w.sessions[k], h);
      PutKeeps(w, k, Handled(w, w.sessions[k], h));
    }
  }

  lemma StartedIdle()
    ensures !Busy(STARTED) && !Deciding(STARTED)
  {
  }

  lemma StartedQuiet()
    ensures Quiet(STARTED)
  {
  }

  lemma StartedHolds()
    ensures SessionInv(STARTED)
  {
    StartedQuiet();
    hide Quiet;
  }

  lemma InitiallyHolds(n: nat)
    ensures Inv(Initial(n))
  {
    hide SessionInv, Busy, Deciding;
    StartedHolds();
    StartedIdle();
    forall k: nat | k < n ensures SessionOk(Initial(n), k) {
      assert Initial(n).sessions[k] == STARTED;
    }
  }

  /** The invariant holds after every sequence of events. */
  lemma {:induction false} AlwaysHolds(n: nat, events: seq<Event>)
    ensures Inv(Exec(n, events))
  {
    hide Inv, Step;
    if events == [] {
      InitiallyHolds(n);
    } else {
      AlwaysHolds(n, events[..|events| - 1]);
      StepKeeps(Exec(n, events[..|events| - 1]), events[|events| - 1]);
    }
  }
}
