/** One HTTPS session as a machine of completion handlers (src/proxy/MitmSession.cpp).

Every asynchronous operation the session starts is counted in `Ops` until its
handler runs, and the buffer of a write in flight is remembered, so that "at most
one of each is outstanding" and "the buffer is the front of the queue" are facts to
prove.  `clientSent`, `upstreamSent`, `reports` and `joins` record what happened. */
module MitmSpec {
  import opened Text
  import opened HttpRequests

  datatype Action = Forward | Drop
  datatype Ec = Ok | Eof | Truncated | Aborted | Failed

  /** What feeding bytes to the parser and taking the message gives. */
  datatype Parse<T> = Incomplete | CompleteEmpty | Complete(message: T)

  /** The current transaction; `ref` is the shared request object. */
  datatype Txn = Txn(id: nat, hasRequest: bool, ref: nat, hasResponse: bool)
  const NO_TXN := Txn(0, false, 0, false)

  datatype Report = Report(id: nat, ref: nat)

  datatype Ops = Ops(
    resolve: nat, connect: nat, established: nat, rawError: nat,
    clientHs: nat, upstreamHs: nat,
    clientRead: nat, decision: nat, upstreamWrite: nat, upstreamRead: nat,
    clientWrite: nat)

  datatype Session = Session(
    tls: bool, clientHsDone: bool, upstreamHsDone: bool,
    closed: bool, closeAfterWrite: bool,
    clientAcc: string, upstreamAcc: string,
    clientQ: seq<string>, upstreamQ: seq<string>,
    cur: Txn,
    ops: Ops, clientBuf: string, upstreamBuf: string, ticket: nat,
    clientSent: seq<string>, upstreamSent: seq<string>, reports: seq<Report>, joins: nat)

  const NO_OPS := Ops(0, 0, 0, 0, 0, 0, 0, 0, 0, 0, 0)
  /** Just started: the name is being resolved. */
  const STARTED := Session(false, false, false, false, false, "", "", [], [], NO_TXN,
                           NO_OPS.(resolve := 1), "", "", 0, [], [], [], 0)

  const MAX_REQUEST := 1048576
  const BAD_GATEWAY: string := "Bad Gateway"
  const DROPPED: string := "Request Dropped by BurpTUI"

  function ErrorText(statusText: string): string {
    "HTTP/1.1 502 " + statusText + CRLF + "Content-Length: 0" + CRLF + "Connection: close" + CRLF + CRLF
  }

  // ---------------------------------------------------------- building blocks

  /** A queue without its front; the invariant shows it is never popped empty. */
  function Popped(q: seq<string>): seq<string> {
    if q == [] then [] else q[1..]
  }

  function Close(s: Session): Session {
    s.(closed := true)
  }

  function ReadClient(s: Session): Session {
    if s.closed then s else s.(ops := s.ops.(clientRead := s.ops.clientRead + 1))
  }

  function ReadUpstream(s: Session): Session {
    if s.closed then s else s.(ops := s.ops.(upstreamRead := s.ops.upstreamRead + 1))
  }

  function DoUpstreamWrite(s: Session): Session {
    if s.closed || s.upstreamQ == [] then s
    else s.(ops := s.ops.(upstreamWrite := s.ops.upstreamWrite + 1), upstreamBuf := s.upstreamQ[0])
  }

  function WriteUpstream(s: Session, data: string): Session {
    if s.closed then s
    else
      var t := s.(upstreamQ := s.upstreamQ + [data]);
      if s.upstreamQ == [] then DoUpstreamWrite(t) else t
  }

  function DoClientWrite(s: Session): Session {
    if s.closed || s.clientQ == [] then s
    else s.(ops := s.ops.(clientWrite := s.ops.clientWrite + 1), clientBuf := s.clientQ[0])
  }

  function WriteClient(s: Session, data: string): Session {
    if s.closed then s
    else
      var t := s.(clientQ := s.clientQ + [data]);
      if s.clientQ == [] then DoClientWrite(t) else t
  }

  /** Stores the response and hands the transaction to the listener. */
  function ReportNow(s: Session): Session {
    s.(cur := s.cur.(hasResponse := true), reports := s.reports + [Report(s.cur.id, s.cur.ref)])
  }

  function SendError(s: Session, statusText: string): Session {
    if s.closed then s
    else
      var t := ReportNow(s.(closeAfterWrite := true));
      if s.clientHsDone && s.tls then WriteClient(t, ErrorText(statusText))
      else t.(ops := t.ops.(rawError := t.ops.rawError + 1))
  }

  function BothHandshakes(s: Session): Session {
    if s.closed then s else ReadClient(s.(joins := s.joins + 1))
  }

  function KeepAlive(hasRequest: bool, req: HttpRequest, res: HttpResponse): bool {
    var connReq := if hasRequest then HeaderValue(req.headers, "Connection") else "";
    var connRes := HeaderValue(res.headers, "Connection");
    if hasRequest && req.version == "HTTP/1.1"
    then !Contains(connReq, "close") && !Contains(connRes, "close")
    else Contains(connReq, "keep-alive") || Contains(connRes, "keep-alive")
  }

  // ----------------------------------------------------------------- handlers
  // Each takes the state in which its operation has just been taken off `ops`.

  function OnResolved(s: Session, ec: Ec): Session {
    if s.closed then s
    else if ec != Ok then SendError(s, BAD_GATEWAY)
    else s.(ops := s.ops.(connect := s.ops.connect + 1))
  }

  function OnConnected(s: Session, ec: Ec): Session {
    if s.closed then s
    else if ec != Ok then SendError(s, BAD_GATEWAY)
    else s.(ops := s.ops.(established := s.ops.established + 1))
  }

  function OnEstablished(s: Session, ec: Ec, haveContext: bool): Session {
    if s.closed then s
    else if ec != Ok || !haveContext then Close(s)
    else s.(tls := true, ops := s.ops.(clientHs := s.ops.clientHs + 1, upstreamHs := s.ops.upstreamHs + 1))
  }

  function OnRawErrorWritten(s: Session): Session {
    Close(s)
  }

  function OnClientHandshake(s: Session, ec: Ec): Session {
    if s.closed then s
    else if ec != Ok then Close(s)
    else
      var t := s.(clientHsDone := true);
      if t.upstreamHsDone then BothHandshakes(t) else t
  }

  function OnUpstreamHandshake(s: Session, ec: Ec): Session {
    if s.closed then s
    else if ec != Ok then Close(s)
    else
      var t := s.(upstreamHsDone := true);
      if t.clientHsDone then BothHandshakes(t) else t
  }

  /** A complete request: it waits for a decision or goes to the server. */
  function Accept(s: Session, req: HttpRequest, seen: bool, id: nat, ref: nat, ticket: nat): Session {
    var u := s.(cur := Txn(id, true, ref, s.cur.hasResponse));
    if seen then u.(ops := u.ops.(decision := u.ops.decision + 1), ticket := ticket)
    else WriteUpstream(u, Serialize(req))
  }

  /** `id`, `ref` and `ticket` are the next free ones; `seen` is the intercept flag
      as the handler read it. */
  function OnClientRead(s: Session, ec: Ec, data: string, parse: Parse<HttpRequest>, seen: bool, id: nat,
      ref: nat, ticket: nat): Session
  {
    if s.closed then s
    else if ec != Ok then Close(s)
    else
      var t := s.(clientAcc := s.clientAcc + data);
      match parse
      case Complete(req) => Accept(t, req, seen, id, ref, ticket)
      case CompleteEmpty => ReadClient(t)
      case Incomplete => if |t.clientAcc| < MAX_REQUEST then ReadClient(t) else Close(t)
  }

  /** The posted continuation: it acts on whatever the current transaction is now. */
  function OnDecision(s: Session, action: Action, current: HttpRequest): Session {
    if s.closed then s
    else match action
         case Forward => WriteUpstream(s, Serialize(current))
         case Drop => SendError(s, DROPPED)
  }

  function OnUpstreamWritten(s: Session, ec: Ec): Session {
    if s.closed then s
    else if ec != Ok then Close(s)
    else
      var t := s.(upstreamSent := s.upstreamSent + [s.upstreamBuf], upstreamQ := Popped(s.upstreamQ));
      if t.upstreamQ != [] then DoUpstreamWrite(t) else ReadUpstream(t)
  }

  /** A response that the end of the stream completes is still reported. */
  function Ended(s: Session, ec: Ec, parse: Parse<HttpResponse>): Session {
    if (ec == Eof || ec == Truncated) && !s.cur.hasResponse && s.upstreamAcc != "" && parse.Complete?
    then Close(ReportNow(s)) else Close(s)
  }

  /** The chunk goes to the client and is kept for the parser. */
  function Relay(s: Session, data: string): Session {
    var w := WriteClient(s, data);
    w.(upstreamAcc := w.upstreamAcc + data)
  }

  /** Ready for the next request on the same connection. */
  function NextRequest(s: Session): Session {
    ReadClient(s.(clientAcc := "", upstreamAcc := "", cur := NO_TXN))
  }

  /** Closes, at once or after the writes still queued. */
  function CloseWhenWritten(s: Session): Session {
    var t := s.(closeAfterWrite := true);
    if t.clientQ == [] then Close(t) else t
  }

  /** After a reported response: the next request, or a close once all is written. */
  function Answer(s: Session, current: HttpRequest, res: HttpResponse): Session {
    if KeepAlive(s.cur.hasRequest, current, res) then NextRequest(s) else CloseWhenWritten(s)
  }

  function OnUpstreamRead(s: Session, ec: Ec, data: string, parse: Parse<HttpResponse>, current: HttpRequest): Session {
    if s.closed then s
    else if ec != Ok then
      Ended(s, ec, parse)
    else
      var t := Relay(s, data);
      match parse
      case Complete(res) => Answer(ReportNow(t), current, res)
      case _ => ReadUpstream(t)
  }

  function OnClientWritten(s: Session, ec: Ec): Session {
    if s.closed then s
    else if ec != Ok then Close(s)
    else
      var t := s.(clientSent := s.clientSent + [s.clientBuf], clientQ := Popped(s.clientQ));
      if t.clientQ != [] then DoClientWrite(t)
      else if t.closeAfterWrite then Close(t) else t
  }

  // -------------------------------------------------------- session invariant

  /** The operations of which, once the handshakes are joined, exactly one is
      outstanding. */
  function Turn(o: Ops): nat {
    o.clientRead + o.decision + o.upstreamWrite + o.upstreamRead
  }

  predicate Joined(s: Session) {
    s.tls && s.clientHsDone && s.upstreamHsDone
  }

  /** A request is being decided, written upstream or answered. */
  predicate Busy(s: Session) {
    !s.closed && Joined(s) && s.ops.decision + s.ops.upstreamWrite + s.ops.upstreamRead > 0
  }

  predicate Quiet(s: Session) {
    && Turn(s.ops) == 0 && s.ops.clientWrite == 0
    && s.clientQ == [] && s.upstreamQ == [] && s.cur.id == 0 && (s.ops.rawError == 0 ==> s.cur == NO_TXN)
  }

  predicate TurnInv(s: Session) {
    && Turn(s.ops) == (if s.closeAfterWrite then 0 else 1)
    && (s.closeAfterWrite ==> s.clientQ != [])
    && (s.ops.clientRead == 1 ==> s.cur == NO_TXN)
    && (s.ops.clientRead == 0 && !s.closeAfterWrite ==> s.cur.id != 0 && s.cur.hasRequest && !s.cur.hasResponse)
    && |s.upstreamQ| == s.ops.upstreamWrite && (s.upstreamQ != [] ==> s.upstreamBuf == s.upstreamQ[0])
    && s.ops.clientWrite == (if s.clientQ == [] then 0 else 1) && (s.clientQ != [] ==> s.clientBuf == s.clientQ[0])
  }

  predicate OpenInv(s: Session) {
    var o := s.ops;
    if !s.tls then
      && o.resolve + o.connect + o.established + o.rawError == 1 && (s.closeAfterWrite <==> o.rawError == 1)
      && !s.clientHsDone && !s.upstreamHsDone && o.clientHs == 0 && o.upstreamHs == 0 && Quiet(s)
    else
      && o.resolve + o.connect + o.established + o.rawError == 0
      && o.clientHs == (if s.clientHsDone then 0 else 1)
      && o.upstreamHs == (if s.upstreamHsDone then 0 else 1)
      && (if Joined(s) then TurnInv(s) else Quiet(s) && !s.closeAfterWrite)
  }

  predicate SessionInv(s: Session) {
    && s.joins == (if s.clientHsDone && s.upstreamHsDone then 1 else 0)
    && (!s.closed ==> OpenInv(s))
  }

  /** Everything queued for the server so far, written or not. */
  function Upstream(s: Session): seq<string> {
    s.upstreamSent + s.upstreamQ
  }

  /** Everything queued for the client over TLS so far, written or not. */
  function Downstream(s: Session): seq<string> {
    s.clientSent + s.clientQ
  }

  /** What the rest of the system sees of a handler that neither accepts a request
      nor runs a decision; `s` is the state with the operation still outstanding. */
  predicate Keeps(s: Session, s': Session) {
    && (s.closed ==> s' == s.(ops := s'.ops))
    && ((s'.cur.id == s.cur.id && s'.cur.ref == s.cur.ref) || (!s'.closed && !Busy(s') && s'.cur.id == 0))
    && (|| s'.reports == s.reports
        || (s'.reports == s.reports + [Report(s.cur.id, s.cur.ref)] && (s.cur.id == 0 || Busy(s)) && !Busy(s')))
    && (Busy(s') ==> Busy(s))
    && (!s'.closed ==> s'.ops.decision == s.ops.decision && s'.ticket == s.ticket)
    && Upstream(s') == Upstream(s)
  }
}
