/** Every handler keeps the session invariant; and what it may change. */
module MitmSteps {
  import opened HttpRequests
  import opened MitmSpec

  /** A handler took the session from s to s' and sent `chunks` to the client. */
  predicate Good(s: Session, s': Session, chunks: seq<string>) {
    SessionInv(s') && Keeps(s, s') && Downstream(s') == Downstream(s) + chunks
  }

  lemma MoveFront(sent: seq<string>, q: seq<string>)
    ensures q != [] ==> (sent + [q[0]]) + q[1..] == sent + q
    ensures sent + [] == sent
  {
  }

  lemma ResolvedStep(s: Session, ec: Ec)
    requires SessionInv(s) && s.ops.resolve > 0
    ensures Good(s, OnResolved(s.(ops := s.ops.(resolve := s.ops.resolve - 1)), ec), [])
  {
    MoveFront(Downstream(s), []);
  }

  lemma ConnectedStep(s: Session, ec: Ec)
    requires SessionInv(s) && s.ops.connect > 0
    ensures Good(s, OnConnected(s.(ops := s.ops.(connect := s.ops.connect - 1)), ec), [])
  {
    MoveFront(Downstream(s), []);
  }

  lemma EstablishedStep(s: Session, ec: Ec, haveContext: bool)
    requires SessionInv(s) && s.ops.established > 0
    ensures Good(s, OnEstablished(s.(ops := s.ops.(established := s.ops.established - 1)), ec, haveContext), [])
  {
    MoveFront(Downstream(s), []);
  }

  lemma RawErrorStep(s: Session)
    requires SessionInv(s) && s.ops.rawError > 0
    ensures Good(s, OnRawErrorWritten(s.(ops := s.ops.(rawError := s.ops.rawError - 1))), [])
  {
    MoveFront(Downstream(s), []);
  }

  lemma ClientHandshakeStep(s: Session, ec: Ec)
    requires SessionInv(s) && s.ops.clientHs > 0
    ensures Good(s, OnClientHandshake(s.(ops := s.ops.(clientHs := s.ops.clientHs - 1)), ec), [])
  {
    MoveFront(Downstream(s), []);
  }

  lemma UpstreamHandshakeStep(s: Session, ec: Ec)
    requires SessionInv(s) && s.ops.upstreamHs > 0
    ensures Good(s, OnUpstreamHandshake(s.(ops := s.ops.(upstreamHs := s.ops.upstreamHs - 1)), ec), [])
  {
    MoveFront(Downstream(s), []);
  }

  lemma TimeoutStep(s: Session)
    requires SessionInv(s)
    ensures Good(s, Close(s), [])
  {
    MoveFront(Downstream(s), []);
  }

  lemma UpstreamWrittenStep(s: Session, ec: Ec)
    requires SessionInv(s) && s.ops.upstreamWrite > 0
    ensures Good(s, OnUpstreamWritten(s.(ops := s.ops.(upstreamWrite := s.ops.upstreamWrite - 1)), ec), [])
  {
    MoveFront(s.upstreamSent, s.upstreamQ);
    MoveFront(Downstream(s), []);
  }

  /** A close after the last write happens only when the queue has drained. */
  lemma ClientWrittenStep(s: Session, ec: Ec)
    requires SessionInv(s) && s.ops.clientWrite > 0
    ensures var s' := OnClientWritten(s.(ops := s.ops.(clientWrite := s.ops.clientWrite - 1)), ec);
            Good(s, s', []) && (!s.closed && ec == Ok && s'.closed ==> s.closeAfterWrite && s'.clientQ == [])
  {
    MoveFront(s.clientSent, s.clientQ);
    MoveFront(Downstream(s), []);
    if !s.closed {
      assert s.tls && Joined(s);
      if ec == Ok {
        ClientWrittenOpen(s);
      }
    }
  }

  lemma ClientWrittenOpen(s: Session)
    requires !s.closed && Joined(s) && SessionInv(s) && s.ops.clientWrite > 0
    ensures var s' := OnClientWritten(s.(ops := s.ops.(clientWrite := s.ops.clientWrite - 1)), Ok);
            SessionInv(s') && Keeps(s, s') && Downstream(s') == Downstream(s)
  {
    MoveFront(s.clientSent, s.clientQ);
    MoveFront(s.upstreamSent, s.upstreamQ);
  }

  /** The session when the upstream read has completed and its handler is about to run. */
  function ReadDone(s: Session): Session
    requires s.ops.upstreamRead > 0
  {
    s.(ops := s.ops.(upstreamRead := s.ops.upstreamRead - 1))
  }

  /** What the handler sees when it relays a chunk: one chunk more for the client. */
  lemma RelayStep(s: Session, data: string)
    requires SessionInv(s) && s.ops.upstreamRead > 0 && !s.closed
    ensures var r := ReadDone(s);
            var t := Relay(r, data);
            && t == s.(clientQ := s.clientQ + [data], upstreamAcc := s.upstreamAcc + data,
                       ops := r.ops.(clientWrite := 1), clientBuf := t.clientQ[0])
            && Downstream(t) == Downstream(s) + [data]
  {
    assert Joined(s) && TurnInv(s);
    WriteClientStep(s, data);
  }

  lemma ReadOnStep(s: Session, data: string, parse: Parse<HttpResponse>, current: HttpRequest)
    requires SessionInv(s) && s.ops.upstreamRead > 0 && !s.closed && !parse.Complete?
    ensures Good(s, OnUpstreamRead(ReadDone(s), Ok, data, parse, current), [data])
  {
    RelayStep(s, data);
    hide Relay, KeepAlive, Downstream;
  }

  lemma CompleteStep(s: Session, data: string, res: HttpResponse, current: HttpRequest)
    requires SessionInv(s) && s.ops.upstreamRead > 0 && !s.closed
    ensures Good(s, OnUpstreamRead(ReadDone(s), Ok, data, Complete(res), current), [data])
  {
    RelayStep(s, data);
    hide Relay, KeepAlive;
  }

  lemma EndedStep(s: Session, ec: Ec, data: string, parse: Parse<HttpResponse>, current: HttpRequest)
    requires SessionInv(s) && s.ops.upstreamRead > 0 && (s.closed || ec != Ok)
    ensures Good(s, OnUpstreamRead(ReadDone(s), ec, data, parse, current), [])
  {
    MoveFront(Downstream(s), []);
  }

  lemma UpstreamReadStep(s: Session, ec: Ec, data: string, parse: Parse<HttpResponse>, current: HttpRequest)
    requires SessionInv(s) && s.ops.upstreamRead > 0
    ensures Good(s, OnUpstreamRead(ReadDone(s), ec, data, parse, current),
                 if !s.closed && ec == Ok then [data] else [])
  {
    hide Good, OnUpstreamRead, SessionInv;
    if s.closed || ec != Ok {
      EndedStep(s, ec, data, parse, current);
    } else if parse.Complete? {
      CompleteStep(s, data, parse.message, current);
    } else {
      ReadOnStep(s, data, parse, current);
    }
  }

  /** A complete response ends the transaction with one report: either the session is
      ready for the next request as it was for the first, or it closes once the client
      has everything. */
  lemma AnsweredStep(s: Session, data: string, res: HttpResponse, current: HttpRequest)
    requires SessionInv(s) && s.ops.upstreamRead > 0 && !s.closed
    ensures var s' := OnUpstreamRead(ReadDone(s), Ok, data, Complete(res), current);
            && !s'.closed && s'.reports == s.reports + [Report(s.cur.id, s.cur.ref)] && s'.clientQ != []
            && (if KeepAlive(true, current, res)
                then
                  && s'.ops.clientRead == 1 && s'.cur == NO_TXN && !s'.closeAfterWrite
                  && s'.clientAcc == "" && s'.upstreamAcc == ""
                else Turn(s'.ops) == 0 && s'.closeAfterWrite)
  {
    hide KeepAlive;
    assert Joined(s) && TurnInv(s);
    WriteClientStep(s, data);
  }

  /** Queueing one more chunk for the client. */
  lemma WriteClientStep(s: Session, data: string)
    requires !s.closed && Joined(s) && TurnInv(s)
    ensures var w := WriteClient(s, data);
            && w == s.(clientQ := s.clientQ + [data], ops := w.ops, clientBuf := w.clientBuf)
            && w.ops == s.ops.(clientWrite := 1) && w.clientBuf == w.clientQ[0]
            && Downstream(w) == Downstream(s) + [data]
  {
  }

  /** The session when the client read has completed and its handler is about to run. */
  function ReadTaken(s: Session): Session
    requires s.ops.clientRead > 0
  {
    s.(ops := s.ops.(clientRead := s.ops.clientRead - 1))
  }

  /** A read that brings no complete request. */
  lemma ClientReadStep(s: Session, ec: Ec, data: string, parse: Parse<HttpRequest>, seen: bool, id: nat,
      ref: nat, ticket: nat)
    requires SessionInv(s) && s.ops.clientRead > 0
    requires s.closed || ec != Ok || !parse.Complete?
    ensures Good(s, OnClientRead(ReadTaken(s), ec, data, parse, seen, id, ref, ticket), [])
  {
    MoveFront(Downstream(s), []);
  }

  /** A request accepted by an open session. */
  lemma ArrivalStep(s: Session, data: string, req: HttpRequest, seen: bool, id: nat, ref: nat, ticket: nat)
    requires SessionInv(s) && s.ops.clientRead > 0 && !s.closed && id != 0
    ensures var s' := OnClientRead(ReadTaken(s), Ok, data, Complete(req), seen, id, ref, ticket);
            && SessionInv(s') && !s'.closed && Busy(s')
            && s'.cur == Txn(id, true, ref, false) && s'.reports == s.reports
            && s'.ops.decision == (if seen then 1 else 0) && (seen ==> s'.ticket == ticket)
            && Upstream(s') == Upstream(s) + (if seen then [] else [Serialize(req)])
            && Downstream(s') == Downstream(s)
  {
    hide Serialize;
    MoveFront(Upstream(s), []);
  }

  /** A forward decision that reaches an open session. */
  lemma ForwardStep(s: Session, current: HttpRequest)
    requires SessionInv(s) && s.ops.decision > 0 && !s.closed
    ensures var s' := OnDecision(s.(ops := s.ops.(decision := s.ops.decision - 1)), Forward, current);
            && SessionInv(s') && !s'.closed && Busy(s') && s'.ops.decision == 0
            && s'.cur == s.cur && s.cur.id != 0 && s'.reports == s.reports
            && Upstream(s') == Upstream(s) + [Serialize(current)] && Downstream(s') == Downstream(s)
  {
    hide Serialize;
  }

  /** A drop decision that reaches an open session. */
  lemma DropStep(s: Session, current: HttpRequest)
    requires SessionInv(s) && s.ops.decision > 0 && !s.closed
    ensures var s' := OnDecision(s.(ops := s.ops.(decision := s.ops.decision - 1)), Drop, current);
            && SessionInv(s') && !s'.closed && !Busy(s') && s'.ops.decision == 0 && s'.closeAfterWrite
            && s'.cur.id == s.cur.id && s'.cur.ref == s.cur.ref && s.cur.id != 0
            && s'.reports == s.reports + [Report(s.cur.id, s.cur.ref)]
            && Upstream(s') == Upstream(s) && Downstream(s') == Downstream(s) + [ErrorText(DROPPED)]
  {
    hide ErrorText;
  }
}
