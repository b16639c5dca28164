/** The client's side of a run, the reports, and an edited request on its way out. */
module WorldClient {
  import opened Text
  import opened HttpRequests
  import opened MessageLaws
  import opened MitmSpec
  import opened MitmSteps
  import opened World
  import opened WorldSteps
  import opened WorldRuns
  import opened WorldTickets

  // ---------------------------------------------------------- the client's account

  function ReadNow(w: World, e: Event, k: nat): seq<string> {
    if e.At? && e.k == k && k < |w.sessions| then Chunks(w.sessions[k], e.h) else []
  }

  /** The chunks session k has read from its server, in order. */
  function ReadSoFar(n: nat, events: seq<Event>, k: nat): seq<string> {
    if events == [] then []
    else ReadSoFar(n, events[..|events| - 1], k) + ReadNow(Exec(n, events[..|events| - 1]), events[|events| - 1], k)
  }

  predicate DropsNow(w: World, e: Event, k: nat) {
    && e.RunPosted? && e.t < |w.tickets| && w.tickets[e.t].status == Posted(Drop)
    && w.tickets[e.t].sess == k && k < |w.sessions| && !w.sessions[k].closed
  }

  /** How many drop decisions session k has run while open. */
  function Drops(n: nat, events: seq<Event>, k: nat): nat {
    if events == [] then 0
    else
      var before := events[..|events| - 1];
      Drops(n, before, k) + (if DropsNow(Exec(n, before), events[|events| - 1], k) then 1 else 0)
  }

  function DropResponse(dropped: bool): seq<string> {
    if dropped then [ErrorText(DROPPED)] else []
  }

  predicate ClosingTls(s: Session) {
    s.closed || (s.closeAfterWrite && s.tls)
  }

  lemma ClosingStays(w: World, s: Session, h: Handler)
    requires ClosingTls(s) && !IsArrival(s, h)
    ensures ClosingTls(Handled(w, s, h))
  {
    match h
    case UpstreamRead(_, _, _) => ClosingReadStays(w, s, h);
    case ClientRead(_, _, _, _) => ClosingReadStays(w, s, h);
    case _ =>
      hide ErrorText, DROPPED, BAD_GATEWAY, Serialize, OnUpstreamRead, OnClientRead;
  }

  lemma ClosingReadStays(w: World, s: Session, h: Handler)
    requires ClosingTls(s) && !IsArrival(s, h) && (h.UpstreamRead? || h.ClientRead?)
    ensures ClosingTls(Handled(w, s, h))
  {
    hide KeepAlive, Current, ErrorText, DROPPED, BAD_GATEWAY, Serialize, EMPTY_REQUEST;
  }

  lemma ClosingReadsNothing(s: Session, h: Handler)
    requires SessionInv(s) && ClosingTls(s)
    ensures Chunks(s, h) == [] && !IsArrival(s, h) && !Deciding(s)
  {
  }

  /** One step: chunks read, at most one error, and nothing more once it is closing. */
  lemma StepDownstream(w: World, e: Event, k: nat)
    requires Inv(w) && k < |w.sessions|
    ensures k < |Step(w, e).sessions|
    ensures var s, s' := w.sessions[k], Step(w, e).sessions[k];
            && Downstream(s') == Downstream(s) + ReadNow(w, e, k) + DropResponse(DropsNow(w, e, k))
            && (DropsNow(w, e, k) ==> !ClosingTls(s) && ReadNow(w, e, k) == [] && ClosingTls(s'))
            && (ClosingTls(s) ==> ClosingTls(s') && ReadNow(w, e, k) == [])
  {
    var s := w.sessions[k];
    assert SessionOk(w, k);
    MoveFront(Downstream(s), []);
    hide Downstream, ClosingTls, Handled, OnDecision, SessionInv, SessionOk, ErrorText, TookFront, TookAll,
         Delivered, RemovedById;
    match e {
      case At(j, h) => if j == k { StepReads(w, k, h); }
      case RunPosted(t) =>
        if t < |w.tickets| && w.tickets[t].status.Posted? && w.tickets[t].sess == k { StepDrops(w, t); }
      case TakeFront(_, _) =>
      case TakeAll(_, _) =>
      case Deliver(_) =>
      case Edit(_, _) =>
      case PlainRequest(_, _, _) =>
      case PlainClose(_) =>
    }
  }

  lemma StepReads(w: World, k: nat, h: Handler)
    requires Inv(w) && k < |w.sessions|
    ensures k < |Handle(w, k, h).sessions|
    ensures var s, s' := w.sessions[k], Handle(w, k, h).sessions[k];
            Downstream(s') == Downstream(s) + Chunks(s, h) && (ClosingTls(s) ==> ClosingTls(s') && Chunks(s, h) == [])
  {
    var s := w.sessions[k];
    assert SessionOk(w, k);
    MoveFront(Downstream(s), []);
    if ClosingTls(s) { ClosingReadsNothing(s, h); }
    hide Inv, SessionOk, SessionInv, Handled, Downstream;
    if IsArrival(s, h) {
      ArriveHandled(w, k, h);
    } else {
      HandledStep(w, s, h);
      if ClosingTls(s) { ClosingStays(w, s, h); }
    }
  }

  lemma StepDrops(w: World, t: nat)
    requires Inv(w) && Running(w, t)
    ensures var e, k := RunPosted(t), w.tickets[t].sess; var s, s' := w.sessions[k], AfterRun(w, t);
            && Downstream(s') == Downstream(s) + DropResponse(DropsNow(w, e, k))
            && (DropsNow(w, e, k) ==> !ClosingTls(s) && ClosingTls(s'))
            && (ClosingTls(s) ==> ClosingTls(s'))
  {
    var k := w.tickets[t].sess;
    var s := w.sessions[k];
    assert SessionOk(w, k);
    MoveFront(Downstream(s), []);
    DecisionRuns(w, t);
    if ClosingTls(s) { ClosingReadsNothing(s, TimerFired); }
    if !s.closed { DecisionIsCurrent(w, t); StaysTls(w, t); }
    hide Inv, SessionOk, SessionInv, Downstream, Upstream, Busy, ErrorText, Serialize, OnDecision;
  }

  lemma StaysTls(w: World, t: nat)
    requires Inv(w) && Running(w, t) && !w.sessions[w.tickets[t].sess].closed
    ensures w.sessions[w.tickets[t].sess].tls && AfterRun(w, t).tls
  {
    OpenRuns(w, t);
    hide Inv, ErrorText, Serialize;
  }

  /** Client writes completed and queued are the chunks read from the server, in order,
      then at most one error response, after a drop. */
  lemma {:induction false} DownstreamBytes(n: nat, events: seq<Event>, k: nat)
    requires k < n
    ensures |Exec(n, events).sessions| == n && Drops(n, events, k) <= 1
    ensures var s := Exec(n, events).sessions[k];
            && Downstream(s) == ReadSoFar(n, events, k) + DropResponse(Drops(n, events, k) == 1)
            && (Drops(n, events, k) == 1 ==> ClosingTls(s))
  {
    SessionsStay(n, events);
    if events == [] {
      assert Exec(n, []).sessions[k] == STARTED;
    } else {
      hide Step, Inv, ReadNow, DropsNow, ClosingTls, Downstream, ErrorText;
      var before := events[..|events| - 1];
      DownstreamBytes(n, before, k);
      AlwaysHolds(n, before);
      StepDownstream(Exec(n, before), events[|events| - 1], k);
    }
  }

  // -------------------------------------------------------------------- the reports

  /** A non-zero id is reported once over all sessions, by the session and with the
      request object that drew it. */
  lemma {:induction false} ReportsUnique(n: nat, events: seq<Event>, k1: nat, i1: nat, k2: nat, i2: nat)
    requires var ss := Exec(n, events).sessions;
             k1 < |ss| && i1 < |ss[k1].reports| && k2 < |ss| && i2 < |ss[k2].reports|
    ensures var w := Exec(n, events); var r1, r2 := w.sessions[k1].reports[i1], w.sessions[k2].reports[i2];
            r1.id != 0 ==> Drawn(w, r1.id, k1, r1.ref) && (r1.id == r2.id ==> k1 == k2 && i1 == i2)
  {
    AlwaysHolds(n, events);
    var w := Exec(n, events);
    hide Exec;
    assert SessionOk(w, k1) && SessionOk(w, k2);
    hide SessionInv, WaitsOnTicket, Busy;
    var r1, r2 := w.sessions[k1].reports[i1], w.sessions[k2].reports[i2];
    if r1.id != 0 && r1.id == r2.id { DrawnOnce(w, r1.id, k1, r1.ref, k2, r2.ref); }
  }

  /** The shared counter never gives an id twice, to whatever kind of session. */
  lemma {:induction false} IdsDistinct(n: nat, events: seq<Event>, i: nat, j: nat)
    requires i < j < |Exec(n, events).draws|
    ensures 0 < Exec(n, events).draws[i].0 < Exec(n, events).draws[j].0 < Exec(n, events).nextId
  {
    AlwaysHolds(n, events);
    var w := Exec(n, events);
    hide Exec, SessionOk, TicketOk;
    assert w.draws[i].0 == i + 1 && w.draws[j].0 == j + 1;
  }

  // ------------------------------------------------------ from the editor to the wire

  predicate Edits(e: Event, ref: nat) {
    e.Edit? && e.ref == ref
  }

  lemma ObjectStep(w: World, e: Event, ref: nat)
    requires ref < |w.heap| && !Edits(e, ref)
    ensures ref < |Step(w, e).heap| && Step(w, e).heap[ref] == w.heap[ref]
  {
    hide Handled, OnDecision;
  }

  /** Nothing but the editor changes a request object. */
  lemma {:induction false} ObjectKept(n: nat, events: seq<Event>, more: seq<Event>, ref: nat)
    requires ref < |Exec(n, events).heap| && forall i | 0 <= i < |more| :: !Edits(more[i], ref)
    ensures ref < |Exec(n, events + more).heap| && Exec(n, events + more).heap[ref] == Exec(n, events).heap[ref]
  {
    hide Step, Edits;
    if more == [] {
      assert events + more == events;
    } else {
      var m := more[..|more| - 1];
      ObjectKept(n, events, m, ref);
      assert (events + more)[..|events + more| - 1] == events + m;
      ObjectStep(Exec(n, events + m), more[|more| - 1], ref);
    }
  }

  lemma OneMoreEvent(n: nat, events: seq<Event>, e: Event)
    ensures Exec(n, events + [e]) == Step(Exec(n, events), e)
  {
    assert (events + [e])[..|events + [e]| - 1] == events;
  }

  lemma EditKept(n: nat, events: seq<Event>, more: seq<Event>, t: nat, req: HttpRequest)
    requires var w := Exec(n, events); t < |w.tickets| && w.tickets[t].ref < |w.heap|
    requires var ref := Exec(n, events).tickets[t].ref; forall i | 0 <= i < |more| :: !Edits(more[i], ref)
    ensures var ref := Exec(n, events).tickets[t].ref; var w := Exec(n, events + [Edit(ref, req)] + more);
            t < |w.tickets| && w.tickets[t].ref == ref < |w.heap| && w.heap[ref] == req
  {
    var ref := Exec(n, events).tickets[t].ref;
    var edit := [Edit(ref, req)];
    OneMoreEvent(n, events, edit[0]);
    assert events + edit + more == events + (edit + more);
    hide Exec, Edits;
    ObjectKept(n, events + edit, more, ref);
    TicketLife(n, events, edit + more, t);
  }

  /** A forward continuation of an open session sends the text its request was parsed from. */
  predicate SendsText(w: World, t: nat, text: string) {
    && Running(w, t) && w.tickets[t].status.a == Forward && !w.sessions[w.tickets[t].sess].closed
    && w.tickets[t].ref < |w.heap| && w.heap[w.tickets[t].ref] == Parsed(text)
  }

  lemma TextSent(w: World, t: nat, text: string)
    requires Inv(w) && SendsText(w, t, text)
    ensures Upstream(AfterRun(w, t)) == Upstream(w.sessions[w.tickets[t].sess]) + [NormalText(text)]
  {
    SentBytesAreNormalForm(text);
    hide Inv, Parsed, Serialize, AfterRun, Upstream, Downstream, SessionInv, Busy, NormalText, CrlfNormal, Contains,
         Unmarked;
    DecisionRuns(w, t);
  }

  /** What a forward continuation sends is what the request object last held: after an
      edit and any run that does not edit that object again, the normal form of the
      edited text goes out; and that is the text itself exactly when it is CRLF-normal,
      has a blank line and no marker. */
  lemma {:induction false} EditedTextGoesOut(n: nat, events: seq<Event>, more: seq<Event>, t: nat, text: string)
    requires var w := Exec(n, events); t < |w.tickets| && w.tickets[t].ref < |w.heap|
    requires var ref := Exec(n, events).tickets[t].ref; forall i | 0 <= i < |more| :: !Edits(more[i], ref)
    requires var w := Exec(n, events + [Edit(Exec(n, events).tickets[t].ref, Parsed(text))] + more);
             Running(w, t) && w.tickets[t].status.a == Forward && !w.sessions[w.tickets[t].sess].closed
    ensures var run := events + [Edit(Exec(n, events).tickets[t].ref, Parsed(text))] + more;
            var w, v := Exec(n, run), Exec(n, run + [RunPosted(t)]); var k := w.tickets[t].sess;
            k < |v.sessions| && Upstream(v.sessions[k]) == Upstream(w.sessions[k]) + [NormalText(text)]
    ensures NormalText(text) == text <==> Unmarked(text) && CrlfNormal(text) && Contains(text, BLANK_LINE)
  {
    var run := events + [Edit(Exec(n, events).tickets[t].ref, Parsed(text))] + more;
    NormalTextFixes(text);
    EditKept(n, events, more, t, Parsed(text));
    AlwaysHolds(n, run);
    OneMoreEvent(n, run, RunPosted(t));
    hide Exec, Inv, Parsed, Upstream, CrlfNormal, Contains, Unmarked, OnDecision, NormalText;
    TextSent(Exec(n, run), t, text);
  }

  lemma ArrivalStored(w: World, k: nat, h: Handler)
    requires Inv(w) && k < |w.sessions| && IsArrival(w.sessions[k], h) && h.seen
    ensures var v := Step(w, At(k, h)); var t, ref := |w.tickets|, |w.heap|;
            && t < |v.tickets| && v.tickets[t] == Ticket(w.nextId, k, ref, Queued)
            && ref < |v.heap| && v.heap[ref] == h.request.message && Drawn(v, w.nextId, k, ref)
  {
    hide Handled;
  }

  lemma RequestKept(n: nat, events: seq<Event>, k: nat, h: Handler, more: seq<Event>)
    requires k < |Exec(n, events).sessions| && IsArrival(Exec(n, events).sessions[k], h) && h.seen
    requires forall i | 0 <= i < |more| :: !Edits(more[i], |Exec(n, events).heap|)
    ensures var t, ref := |Exec(n, events).tickets|, |Exec(n, events).heap|;
            var w := Exec(n, events + [At(k, h)] + more);
            && t < |w.tickets| && w.tickets[t].sess == k && w.tickets[t].ref == ref < |w.heap|
            && w.heap[ref] == h.request.message
  {
    AlwaysHolds(n, events);
    ArrivalStored(Exec(n, events), k, h);
    OneMoreEvent(n, events, At(k, h));
    var t, ref := |Exec(n, events).tickets|, |Exec(n, events).heap|;
    hide Exec, Step, Edits, IsArrival, Inv, Drawn;
    ObjectKept(n, events + [At(k, h)], more, ref);
    TicketLife(n, events + [At(k, h)], more, t);
  }

  /** An intercepted request that nobody edits is forwarded as it was read, whatever
      else happens meanwhile. */
  lemma {:induction false} UneditedGoesOut(n: nat, events: seq<Event>, k: nat, h: Handler, more: seq<Event>)
    requires k < |Exec(n, events).sessions| && IsArrival(Exec(n, events).sessions[k], h) && h.seen
    requires forall i | 0 <= i < |more| :: !Edits(more[i], |Exec(n, events).heap|)
    requires var t, w := |Exec(n, events).tickets|, Exec(n, events + [At(k, h)] + more);
             k < |w.sessions| && !w.sessions[k].closed && t < |w.tickets| && w.tickets[t].status == Posted(Forward)
    ensures var t, run := |Exec(n, events).tickets|, events + [At(k, h)] + more;
            var w, v := Exec(n, run), Exec(n, run + [RunPosted(t)]);
            k < |v.sessions| && Upstream(v.sessions[k]) == Upstream(w.sessions[k]) + [Serialize(h.request.message)]
  {
    var t, run := |Exec(n, events).tickets|, events + [At(k, h)] + more;
    RequestKept(n, events, k, h, more);
    AlwaysHolds(n, run);
    OneMoreEvent(n, run, RunPosted(t));
    hide Exec, Inv, Serialize, Upstream, Downstream, OnDecision, IsArrival, Edits, Busy, SessionInv;
    DecisionRuns(Exec(n, run), t);
  }
}
