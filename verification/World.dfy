/** All sessions, the intercept queue, the request objects and the id counter, under
    every interleaving of completion handlers and user-interface threads.

An intercepted request is a ticket, numbered in order of arrival.  The queue of the
intercept manager is the tickets with status Queued; the list a forwardAll or
dropAll works through is the tickets Taken by its thread.  A decision is Posted when
the callback has run and Ran when its continuation has.

Requests to plain HTTP sites and CONNECT requests are read by plain sessions, numbered
after the HTTPS ones; of these only the ids they draw, the tickets they queue and the
removal when they close are modelled.

A step whose operation is not outstanding changes nothing, so every sequence of
events is a run. */
module World {
  import opened HttpRequests
  import opened MitmSpec

  datatype Status = Queued | Taken(th: nat, a: Action) | Posted(a: Action) | Ran(a: Action) | Removed
  datatype Ticket = Ticket(id: nat, sess: nat, ref: nat, status: Status)

  /** Who drew an id, and for which request object. */
  datatype Draw = Draw(sess: nat, ref: nat)

  datatype World = World(
    sessions: seq<Session>, tickets: seq<Ticket>, heap: seq<HttpRequest>,
    nextId: nat, draws: seq<(nat, Draw)>)

  /** A completion handler of one session, with what the operation gave. */
  datatype Handler =
    | Resolved(ec: Ec)
    | Connected(ec: Ec)
    | Established(ec: Ec, haveContext: bool)
    | RawErrorWritten
    | ClientHandshake(ec: Ec)
    | UpstreamHandshake(ec: Ec)
    | ClientRead(ec: Ec, data: string, request: Parse<HttpRequest>, seen: bool)
    | UpstreamWritten(ec: Ec)
    | UpstreamRead(ec: Ec, data: string, response: Parse<HttpResponse>)
    | ClientWritten(ec: Ec)
    | TimerFired

  datatype Event =
    | At(k: nat, h: Handler)            // session k runs a handler
    | RunPosted(t: nat)                 // the continuation of the decision on ticket t
    | TakeFront(th: nat, a: Action)     // forwardCurrent, dropCurrent: the critical section
    | TakeAll(th: nat, a: Action)       // forwardAll, dropAll: the critical section
    | Deliver(th: nat)                  // the next callback of that thread
    | Edit(ref: nat, req: HttpRequest)  // the editor overwrites a request object
    | PlainRequest(m: nat, req: HttpRequest, seen: bool)  // the m-th plain session accepts a request
    | PlainClose(id: nat)               // the plain session that drew this id closes

  function Initial(n: nat): World {
    World(seq(n, _ => STARTED), [], [], 1, [])
  }

  // -------------------------------------------------------- the intercept queue

  function FirstQueued(ts: seq<Ticket>, from: nat): (t: nat)
    requires from <= |ts|
    ensures from <= t <= |ts| && (t < |ts| ==> ts[t].status == Queued)
    ensures forall i | from <= i < t :: ts[i].status != Queued
    decreases |ts| - from
  {
    if from == |ts| || ts[from].status == Queued then from else FirstQueued(ts, from + 1)
  }

  function FirstTaken(ts: seq<Ticket>, th: nat, from: nat): (t: nat)
    requires from <= |ts|
    ensures from <= t <= |ts| && (t < |ts| ==> ts[t].status.Taken? && ts[t].status.th == th)
    ensures forall i | from <= i < t :: !(ts[i].status.Taken? && ts[i].status.th == th)
    decreases |ts| - from
  {
    if from == |ts| || (ts[from].status.Taken? && ts[from].status.th == th) then from else FirstTaken(ts, th, from + 1)
  }

  /** A thread takes from the queue only when it has delivered what it took. */
  predicate ThreadIdle(ts: seq<Ticket>, th: nat) {
    FirstTaken(ts, th, 0) == |ts|
  }

  function SetStatus(ts: seq<Ticket>, t: nat, st: Status): seq<Ticket>
    requires t < |ts|
  {
    ts[t := ts[t].(status := st)]
  }

  function TookFront(ts: seq<Ticket>, th: nat, a: Action): seq<Ticket> {
    var t := FirstQueued(ts, 0);
    if t < |ts| && ThreadIdle(ts, th) then SetStatus(ts, t, Taken(th, a)) else ts
  }

  function TookAll(ts: seq<Ticket>, th: nat, a: Action): seq<Ticket> {
    if ThreadIdle(ts, th)
    then seq(|ts|, i requires 0 <= i < |ts| => if ts[i].status == Queued then ts[i].(status := Taken(th, a)) else ts[i])
    else ts
  }

  function Delivered(ts: seq<Ticket>, th: nat): seq<Ticket> {
    var t := FirstTaken(ts, th, 0);
    if t < |ts| then SetStatus(ts, t, Posted(ts[t].status.a)) else ts
  }

  function RemovedById(ts: seq<Ticket>, id: nat): seq<Ticket> {
    seq(|ts|, i requires 0 <= i < |ts| =>
      if ts[i].status == Queued && ts[i].id == id then ts[i].(status := Removed) else ts[i])
  }

  // ---------------------------------------------------------------------- steps

  /** Closing also removes the session's own pending request from the queue. */
  function AfterClose(s: Session, s': Session, ts: seq<Ticket>): seq<Ticket> {
    if !s.closed && s'.closed && s'.cur.id != 0 then RemovedById(ts, s'.cur.id) else ts
  }

  function Put(w: World, k: nat, s': Session): World
    requires k < |w.sessions|
  {
    w.(sessions := w.sessions[k := s'], tickets := AfterClose(w.sessions[k], s', w.tickets))
  }

  function Current(w: World, s: Session): HttpRequest {
    if s.cur.ref < |w.heap| then w.heap[s.cur.ref] else EMPTY_REQUEST
  }

  /** A complete request read by an open session. */
  predicate IsArrival(s: Session, h: Handler) {
    h.ClientRead? && !s.closed && s.ops.clientRead > 0 && h.ec == Ok && h.request.Complete?
  }

  /** The session after a handler; the same when its operation is not outstanding. */
  function Handled(w: World, s: Session, h: Handler): Session {
    var o := s.ops;
    match h
    case Resolved(ec) => if o.resolve == 0 then s else OnResolved(s.(ops := o.(resolve := o.resolve - 1)), ec)
    case Connected(ec) => if o.connect == 0 then s else OnConnected(s.(ops := o.(connect := o.connect - 1)), ec)
    case Established(ec, ctx) =>
      if o.established == 0 then s else OnEstablished(s.(ops := o.(established := o.established - 1)), ec, ctx)
    case RawErrorWritten => if o.rawError == 0 then s else OnRawErrorWritten(s.(ops := o.(rawError := o.rawError - 1)))
    case ClientHandshake(ec) =>
      if o.clientHs == 0 then s else OnClientHandshake(s.(ops := o.(clientHs := o.clientHs - 1)), ec)
    case UpstreamHandshake(ec) =>
      if o.upstreamHs == 0 then s else OnUpstreamHandshake(s.(ops := o.(upstreamHs := o.upstreamHs - 1)), ec)
    case ClientRead(ec, data, req, seen) =>
      if o.clientRead == 0 then s
      else
        var t := s.(ops := o.(clientRead := o.clientRead - 1));
        OnClientRead(t, ec, data, req, seen, w.nextId, |w.heap|, |w.tickets|)
    case UpstreamWritten(ec) =>
      if o.upstreamWrite == 0 then s else OnUpstreamWritten(s.(ops := o.(upstreamWrite := o.upstreamWrite - 1)), ec)
    case UpstreamRead(ec, data, res) =>
      if o.upstreamRead == 0 then s
      else OnUpstreamRead(s.(ops := o.(upstreamRead := o.upstreamRead - 1)), ec, data, res, Current(w, s))
    case ClientWritten(ec) =>
      if o.clientWrite == 0 then s else OnClientWritten(s.(ops := o.(clientWrite := o.clientWrite - 1)), ec)
    case TimerFired => Close(s)
  }

  /** A new request gets the next id, a fresh request object and, if intercepted, a ticket. */
  function Arrive(w: World, k: nat, h: Handler): World
    requires k < |w.sessions| && IsArrival(w.sessions[k], h)
  {
    World(w.sessions[k := Handled(w, w.sessions[k], h)],
          if h.seen then w.tickets + [Ticket(w.nextId, k, |w.heap|, Queued)] else w.tickets,
          w.heap + [h.request.message],
          w.nextId + 1,
          w.draws + [(w.nextId, Draw(k, |w.heap|))])
  }

  function RunDecision(w: World, t: nat): World
    requires t < |w.tickets| && w.tickets[t].status.Posted?
  {
    var a := w.tickets[t].status.a;
    var k := w.tickets[t].sess;
    var v := w.(tickets := SetStatus(w.tickets, t, Ran(a)));
    if k < |w.sessions| && w.sessions[k].ops.decision > 0
    then
      var s := w.sessions[k];
      v.(sessions := w.sessions[k := OnDecision(s.(ops := s.ops.(decision := s.ops.decision - 1)), a, Current(w, s))])
    else v
  }

  function Handle(w: World, k: nat, h: Handler): World {
    if k >= |w.sessions| then w
    else if IsArrival(w.sessions[k], h) then Arrive(w, k, h)
    else Put(w, k, Handled(w, w.sessions[k], h))
  }

  /** A request of a plain session: an id, and a ticket if it is intercepted. */
  function PlainArrive(w: World, k: nat, req: HttpRequest, seen: bool): World {
    World(w.sessions,
          if seen then w.tickets + [Ticket(w.nextId, k, |w.heap|, Queued)] else w.tickets,
          w.heap + [req], w.nextId + 1, w.draws + [(w.nextId, Draw(k, |w.heap|))])
  }

  predicate PlainDrew(w: World, id: nat) {
    1 <= id <= |w.draws| && w.draws[id - 1].1.sess >= |w.sessions|
  }

  function Step(w: World, e: Event): World {
    match e
    case At(k, h) => Handle(w, k, h)
    case RunPosted(t) => if t < |w.tickets| && w.tickets[t].status.Posted? then RunDecision(w, t) else w
    case TakeFront(th, a) => w.(tickets := TookFront(w.tickets, th, a))
    case TakeAll(th, a) => w.(tickets := TookAll(w.tickets, th, a))
    case Deliver(th) => w.(tickets := Delivered(w.tickets, th))
    case Edit(ref, req) => if ref < |w.heap| then w.(heap := w.heap[ref := req]) else w
    case PlainRequest(m, req, seen) => PlainArrive(w, |w.sessions| + m, req, seen)
    case PlainClose(id) => if PlainDrew(w, id) then w.(tickets := RemovedById(w.tickets, id)) else w
  }

  function Exec(n: nat, events: seq<Event>): World {
    if events == [] then Initial(n)
    else Step(Exec(n, events[..|events| - 1]), events[|events| - 1])
  }

  // ------------------------------------------------------------------ invariant

  predicate Live(st: Status) {
    st.Queued? || st.Taken? || st.Posted?
  }

  /** That id was given to that session for that request object. */
  predicate Drawn(w: World, id: nat, k: nat, ref: nat) {
    1 <= id <= |w.draws| && w.draws[id - 1] == (id, Draw(k, ref)) && ref < |w.heap|
  }

  predicate Unreported(reports: seq<Report>, id: nat) {
    forall j | 0 <= j < |reports| :: reports[j].id != id
  }

  predicate DistinctReports(reports: seq<Report>) {
    forall i, j | 0 <= i < j < |reports| :: reports[i].id == 0 || reports[i].id != reports[j].id
  }

  predicate Deciding(s: Session) {
    !s.closed && s.ops.decision == 1
  }

  /** Every non-zero id a session holds or has reported was given to it, for that
      request; a request being served has not been reported. */
  predicate ReportsOk(w: World, k: nat, s: Session) {
    && (s.cur.id != 0 ==> Drawn(w, s.cur.id, k, s.cur.ref))
    && (forall j | 0 <= j < |s.reports| :: s.reports[j].id != 0 ==> Drawn(w, s.reports[j].id, k, s.reports[j].ref))
    && DistinctReports(s.reports)
    && (Busy(s) ==> Unreported(s.reports, s.cur.id))
  }

  /** An open session waiting for a decision has a live ticket for its request. */
  predicate WaitsOnTicket(ts: seq<Ticket>, k: nat, s: Session) {
    Deciding(s) ==>
      && s.ticket < |ts| && Live(ts[s.ticket].status)
      && ts[s.ticket].sess == k && ts[s.ticket].id == s.cur.id && ts[s.ticket].ref == s.cur.ref
  }

  predicate SessionOk(w: World, k: nat)
    requires k < |w.sessions|
  {
    SessionInv(w.sessions[k]) && ReportsOk(w, k, w.sessions[k]) && WaitsOnTicket(w.tickets, k, w.sessions[k])
  }

  predicate TicketOk(w: World, t: nat)
    requires t < |w.tickets|
  {
    var x := w.tickets[t];
    && Drawn(w, x.id, x.sess, x.ref)
    && (x.sess < |w.sessions| ==>
          && (x.status.Queued? ==> !w.sessions[x.sess].closed)
          && (Live(x.status) && !w.sessions[x.sess].closed ==>
                Deciding(w.sessions[x.sess]) && w.sessions[x.sess].ticket == t))
  }

  predicate DrawsOk(w: World) {
    w.nextId == |w.draws| + 1 && forall i | 0 <= i < |w.draws| :: w.draws[i].0 == i + 1
  }

  predicate DistinctTickets(ts: seq<Ticket>) {
    forall i, j | 0 <= i < j < |ts| :: ts[i].id < ts[j].id
  }

  predicate Inv(w: World) {
    && DrawsOk(w) && DistinctTickets(w.tickets)
    && (forall k | 0 <= k < |w.sessions| :: SessionOk(w, k))
    && (forall t | 0 <= t < |w.tickets| :: TicketOk(w, t))
  }
}
