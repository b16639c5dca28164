/** The HTTPS session as an object: its methods are the handlers, each proved to take
    the fields where the handler of MitmSpec takes the session, and to touch the
    intercept queue only by closing or by queueing a request. */
module MitmSessions {
  import opened HttpRequests
  import opened MitmSpec
  import opened World
  import opened InterceptManagers

  /** What all sessions share: the id counter, the request objects, the manager. */
  class Proxy {
    var nextId: nat
    var requests: seq<HttpRequest>
    const manager: InterceptManager

    constructor (manager: InterceptManager)
      ensures this.manager == manager && nextId == 1 && requests == []
    {
      this.manager, nextId, requests := manager, 1, [];
    }
  }

  class MitmSession {
    const proxy: Proxy
    var clientStream: bool
    var clientHandshakeDone: bool
    var upstreamHandshakeDone: bool
    var isClosed: bool
    var closeAfterWrite: bool
    var clientAccumulated: string
    var upstreamAccumulated: string
    var clientWriteQueue: seq<string>
    var upstreamWriteQueue: seq<string>
    var currentTransaction: Txn

    ghost var ops: Ops
    ghost var clientBuf: string
    ghost var upstreamBuf: string
    ghost var ticket: nat
    ghost var clientSent: seq<string>
    ghost var upstreamSent: seq<string>
    ghost var reports: seq<Report>
    ghost var joins: nat

    ghost function View(): Session
      reads this
    {
      Session(clientStream, clientHandshakeDone, upstreamHandshakeDone, isClosed, closeAfterWrite,
              clientAccumulated, upstreamAccumulated, clientWriteQueue, upstreamWriteQueue, currentTransaction,
              ops, clientBuf, upstreamBuf, ticket, clientSent, upstreamSent, reports, joins)
    }

    /** Started: the name is being resolved. */
    constructor (proxy: Proxy)
      ensures View() == STARTED && this.proxy == proxy
    {
      this.proxy := proxy;
      clientStream, clientHandshakeDone, upstreamHandshakeDone := false, false, false;
      isClosed, closeAfterWrite := false, false;
      clientAccumulated, upstreamAccumulated, clientWriteQueue, upstreamWriteQueue := "", "", [], [];
      currentTransaction := NO_TXN;
      ops, clientBuf, upstreamBuf, ticket := NO_OPS.(resolve := 1), "", "", 0;
      clientSent, upstreamSent, reports, joins := [], [], [], 0;
    }

    // ---------------------------------------------------------- building blocks

    method Close()
      requires proxy.manager.Valid()
      modifies this`isClosed, proxy.manager`queue, proxy.manager`tickets, proxy.manager`notices
      ensures proxy.manager.Valid() && View() == MitmSpec.Close(old(View()))
      ensures proxy.manager.tickets == AfterClose(old(View()), View(), old(proxy.manager.tickets))
    {
      if isClosed { return; }
      isClosed := true;
      if currentTransaction.id != 0 {
        proxy.manager.RemoveById(currentTransaction.id);
      }
    }

    method ReadClient()
      modifies this`ops
      ensures View() == MitmSpec.ReadClient(old(View()))
    {
      if isClosed { return; }
      ops := ops.(clientRead := ops.clientRead + 1);
    }

    method ReadUpstream()
      modifies this`ops
      ensures View() == MitmSpec.ReadUpstream(old(View()))
    {
      if isClosed { return; }
      ops := ops.(upstreamRead := ops.upstreamRead + 1);
    }

    method DoUpstreamWrite()
      modifies this`ops, this`upstreamBuf
      ensures View() == MitmSpec.DoUpstreamWrite(old(View()))
    {
      if isClosed || upstreamWriteQueue == [] { return; }
      ops, upstreamBuf := ops.(upstreamWrite := ops.upstreamWrite + 1), upstreamWriteQueue[0];
    }

    method WriteUpstream(data: string)
      modifies this`upstreamWriteQueue, this`ops, this`upstreamBuf
      ensures View() == MitmSpec.WriteUpstream(old(View()), data)
    {
      if isClosed { return; }
      var idle := upstreamWriteQueue == [];
      upstreamWriteQueue := upstreamWriteQueue + [data];
      if idle { DoUpstreamWrite(); }
    }

    method DoClientWrite()
      modifies this`ops, this`clientBuf
      ensures View() == MitmSpec.DoClientWrite(old(View()))
    {
      if isClosed || clientWriteQueue == [] { return; }
      ops, clientBuf := ops.(clientWrite := ops.clientWrite + 1), clientWriteQueue[0];
    }

    method WriteClient(data: string)
      modifies this`clientWriteQueue, this`ops, this`clientBuf
      ensures View() == MitmSpec.WriteClient(old(View()), data)
    {
      if isClosed { return; }
      var idle := clientWriteQueue == [];
      clientWriteQueue := clientWriteQueue + [data];
      if idle { DoClientWrite(); }
    }

    /** The response is stored and the listener called. */
    method OnTransaction()
      modifies this`currentTransaction, this`reports
      ensures View() == ReportNow(old(View())) && currentTransaction == old(currentTransaction).(hasResponse := true)
    {
      currentTransaction := currentTransaction.(hasResponse := true);
      reports := reports + [Report(currentTransaction.id, currentTransaction.ref)];
    }

    method SendErrorResponse(statusText: string)
      modifies this
      ensures View() == SendError(old(View()), statusText)
    {
      if isClosed { return; }
      var response := ErrorText(statusText);
      closeAfterWrite := true;
      OnTransaction();
      if clientHandshakeDone && clientStream {
        WriteClient(response);
      } else {
        ops := ops.(rawError := ops.rawError + 1);
      }
    }

    method OnBothHandshakesComplete()
      modifies this`joins, this`ops
      ensures View() == BothHandshakes(old(View()))
    {
      if isClosed { return; }
      joins := joins + 1;
      ReadClient();
    }

    // ----------------------------------------------------------------- handlers
    // Each runs when its operation has completed and is off `ops`.

    method HandleResolved(ec: Ec)
      requires proxy.manager.Valid()
      modifies this
      ensures proxy.manager.Valid() && View() == OnResolved(old(View()), ec)
    {
      if isClosed { return; }
      if ec != Ok { SendErrorResponse(BAD_GATEWAY); return; }
      ops := ops.(connect := ops.connect + 1);
    }

    method HandleConnected(ec: Ec)
      requires proxy.manager.Valid()
      modifies this
      ensures proxy.manager.Valid() && View() == OnConnected(old(View()), ec)
    {
      if isClosed { return; }
      if ec != Ok { SendErrorResponse(BAD_GATEWAY); return; }
      ops := ops.(established := ops.established + 1);
    }

    method HandleEstablished(ec: Ec, haveContext: bool)
      requires proxy.manager.Valid()
      modifies this, proxy.manager`queue, proxy.manager`tickets, proxy.manager`notices
      ensures proxy.manager.Valid() && View() == OnEstablished(old(View()), ec, haveContext)
      ensures proxy.manager.tickets == AfterClose(old(View()), View(), old(proxy.manager.tickets))
    {
      if isClosed { return; }
      if ec != Ok { Close(); return; }
      if !haveContext { Close(); return; }
      clientStream := true;
      ops := ops.(clientHs := ops.clientHs + 1, upstreamHs := ops.upstreamHs + 1);
    }

    method HandleRawErrorWritten()
      requires proxy.manager.Valid()
      modifies this, proxy.manager`queue, proxy.manager`tickets, proxy.manager`notices
      ensures proxy.manager.Valid() && View() == OnRawErrorWritten(old(View()))
      ensures proxy.manager.tickets == AfterClose(old(View()), View(), old(proxy.manager.tickets))
    {
      Close();
    }

    method HandleTimeout()
      requires proxy.manager.Valid()
      modifies this, proxy.manager`queue, proxy.manager`tickets, proxy.manager`notices
      ensures proxy.manager.Valid() && View() == MitmSpec.Close(old(View()))
      ensures proxy.manager.tickets == AfterClose(old(View()), View(), old(proxy.manager.tickets))
    {
      Close();
    }

    method HandleClientHandshake(ec: Ec)
      requires proxy.manager.Valid()
      modifies this, proxy.manager`queue, proxy.manager`tickets, proxy.manager`notices
      ensures proxy.manager.Valid() && View() == OnClientHandshake(old(View()), ec)
      ensures proxy.manager.tickets == AfterClose(old(View()), View(), old(proxy.manager.tickets))
    {
      if isClosed { return; }
      if ec != Ok { Close(); return; }
      clientHandshakeDone := true;
      if upstreamHandshakeDone { OnBothHandshakesComplete(); }
    }

    method HandleUpstreamHandshake(ec: Ec)
      requires proxy.manager.Valid()
      modifies this, proxy.manager`queue, proxy.manager`tickets, proxy.manager`notices
      ensures proxy.manager.Valid() && View() == OnUpstreamHandshake(old(View()), ec)
      ensures proxy.manager.tickets == AfterClose(old(View()), View(), old(proxy.manager.tickets))
    {
      if isClosed { return; }
      if ec != Ok { Close(); return; }
      upstreamHandshakeDone := true;
      if clientHandshakeDone { OnBothHandshakesComplete(); }
    }

    /** `parse` is what the parser makes of the data, `seen` the intercept flag. */
    method HandleClientRead(ec: Ec, data: string, parse: Parse<HttpRequest>, seen: bool, callback: nat, ghost sess: nat)
      requires proxy.manager.Valid() && callback == |proxy.manager.tickets|
      modifies this, proxy, proxy.manager`queue, proxy.manager`tickets, proxy.manager`notices
      ensures proxy.manager.Valid()
      ensures View() ==
                OnClientRead(old(View()), ec, data, parse, seen, old(proxy.nextId), |old(proxy.requests)|, callback)
      ensures if old(!isClosed) && ec == Ok && parse.Complete?
              then proxy.nextId == old(proxy.nextId) + 1 && proxy.requests == old(proxy.requests) + [parse.message]
                   && proxy.manager.tickets ==
                        old(proxy.manager.tickets) + NewTicket(seen, old(proxy.nextId), sess, |old(proxy.requests)|)
              else proxy.nextId == old(proxy.nextId) && proxy.requests == old(proxy.requests)
                   && proxy.manager.tickets == AfterClose(old(View()), View(), old(proxy.manager.tickets))
    {
      hide RemovedById, Items, Serialize, MitmSpec.WriteUpstream, MitmSpec.ReadClient;
      if isClosed { return; }
      if ec != Ok { Close(); return; }
      clientAccumulated := clientAccumulated + data;

      if parse.Complete? {
        AcceptRequest(parse.message, seen, callback, sess);
      } else if parse.CompleteEmpty? {
        ReadClient();
      } else if |clientAccumulated| < MAX_REQUEST {
        ReadClient();
      } else {
        Close();
      }
    }

    ghost static function NewTicket(seen: bool, id: nat, sess: nat, ref: nat): seq<Ticket> {
      if seen then [Ticket(id, sess, ref, Queued)] else []
    }

    /** A complete request: it gets an id and goes to the manager or to the server. */
    method AcceptRequest(req: HttpRequest, seen: bool, callback: nat, ghost sess: nat)
      requires proxy.manager.Valid() && callback == |proxy.manager.tickets|
      modifies this, proxy, proxy.manager`queue, proxy.manager`tickets, proxy.manager`notices
      ensures proxy.manager.Valid() && isClosed == old(isClosed)
      ensures View() == Accept(old(View()), req, seen, old(proxy.nextId), |old(proxy.requests)|, callback)
      ensures proxy.nextId == old(proxy.nextId) + 1 && proxy.requests == old(proxy.requests) + [req]
      ensures proxy.manager.tickets ==
        old(proxy.manager.tickets) + NewTicket(seen, old(proxy.nextId), sess, |old(proxy.requests)|)
    {
      hide Items, Serialize, MitmSpec.WriteUpstream;
      var id, ref := proxy.nextId, |proxy.requests|;
      proxy.nextId, proxy.requests := id + 1, proxy.requests + [req];
      currentTransaction := Txn(id, true, ref, currentTransaction.hasResponse);
      SendOrHold(req, seen, id, ref, callback, sess);
    }

    method SendOrHold(req: HttpRequest, seen: bool, id: nat, ref: nat, callback: nat, ghost sess: nat)
      requires proxy.manager.Valid() && callback == |proxy.manager.tickets|
      modifies this`ops, this`ticket, this`upstreamBuf, this`upstreamWriteQueue
      modifies proxy.manager`queue, proxy.manager`tickets, proxy.manager`notices
      ensures proxy.manager.Valid()
      ensures proxy.manager.tickets == old(proxy.manager.tickets) + NewTicket(seen, id, sess, ref)
      ensures View() == if seen
                        then old(View()).(ops := old(ops).(decision := old(ops).decision + 1), ticket := callback)
                        else MitmSpec.WriteUpstream(old(View()), Serialize(req))
    {
      hide Items, Serialize, MitmSpec.WriteUpstream;
      if seen {
        ops, ticket := ops.(decision := ops.decision + 1), callback;
        proxy.manager.InterceptRequest(id, ref, callback, sess);
        return;
      }
      var serialized := SerializeRequest(req);
      WriteUpstream(serialized);
    }

    /** The continuation posted by the callback of an intercepted request. */
    method HandleDecision(action: Action)
      requires proxy.manager.Valid() && (!isClosed ==> currentTransaction.ref < |proxy.requests|)
      modifies this
      ensures proxy.manager.Valid()
      ensures View() == OnDecision(old(View()), action,
                                   if old(isClosed) then EMPTY_REQUEST else proxy.requests[old(currentTransaction).ref])
    {
      if isClosed { return; }
      if action == Forward {
        var serialized := SerializeRequest(proxy.requests[currentTransaction.ref]);
        WriteUpstream(serialized);
      } else {
        SendErrorResponse(DROPPED);
      }
    }

    method HandleUpstreamWrite(ec: Ec)
      requires proxy.manager.Valid() && (!isClosed ==> upstreamWriteQueue != [])
      modifies this, proxy.manager`queue, proxy.manager`tickets, proxy.manager`notices
      ensures proxy.manager.Valid() && View() == OnUpstreamWritten(old(View()), ec)
      ensures proxy.manager.tickets == AfterClose(old(View()), View(), old(proxy.manager.tickets))
    {
      hide RemovedById, Items, Without, ErrorText, MitmSpec.DoUpstreamWrite, MitmSpec.ReadUpstream;
      if isClosed { return; }
      if ec != Ok { Close(); return; }
      upstreamSent := upstreamSent + [upstreamBuf];
      upstreamWriteQueue := upstreamWriteQueue[1..];
      if upstreamWriteQueue != [] { DoUpstreamWrite(); } else { ReadUpstream(); }
    }

    /** `parse` is what the parser makes of the data, or at the end of the stream of
        everything accumulated. */
    method HandleUpstreamRead(ec: Ec, data: string, parse: Parse<HttpResponse>)
      requires proxy.manager.Valid() && (!isClosed ==> currentTransaction.ref < |proxy.requests|)
      modifies this, proxy.manager`queue, proxy.manager`tickets, proxy.manager`notices
      ensures proxy.manager.Valid()
      ensures View() == OnUpstreamRead(old(View()), ec, data, parse,
                                       if old(isClosed) then EMPTY_REQUEST
                                       else proxy.requests[old(currentTransaction).ref])
      ensures proxy.manager.tickets == AfterClose(old(View()), View(), old(proxy.manager.tickets))
    {
      hide KeepAlive, RemovedById, Items, Answer, Ended, ReportNow, MitmSpec.Relay, MitmSpec.ReadUpstream;
      if isClosed { return; }
      if ec != Ok { UpstreamEnded(ec, parse); return; }
      Relay(data);
      if parse.Complete? { RequestAnswered(parse.message); } else { ReadUpstream(); }
    }

    method Relay(data: string)
      modifies this`clientWriteQueue, this`ops, this`clientBuf, this`upstreamAccumulated
      ensures View() == MitmSpec.Relay(old(View()), data)
    {
      hide MitmSpec.WriteClient;
      WriteClient(data);
      upstreamAccumulated := upstreamAccumulated + data;
    }

    method UpstreamEnded(ec: Ec, parse: Parse<HttpResponse>)
      requires proxy.manager.Valid()
      modifies this, proxy.manager`queue, proxy.manager`tickets, proxy.manager`notices
      ensures proxy.manager.Valid() && View() == Ended(old(View()), ec, parse)
      ensures proxy.manager.tickets == AfterClose(old(View()), View(), old(proxy.manager.tickets))
    {
      hide RemovedById, Items;
      if ec == Eof || ec == Truncated {
        if !currentTransaction.hasResponse && upstreamAccumulated != "" {
          if parse.Complete? { OnTransaction(); }
        }
      }
      Close();
    }

    method RequestAnswered(res: HttpResponse)
      requires proxy.manager.Valid() && currentTransaction.ref < |proxy.requests|
      modifies this, proxy.manager`queue, proxy.manager`tickets, proxy.manager`notices
      ensures proxy.manager.Valid()
      ensures View() == Answer(ReportNow(old(View())), proxy.requests[old(currentTransaction).ref], res)
      ensures proxy.manager.tickets == AfterClose(old(View()), View(), old(proxy.manager.tickets))
    {
      hide KeepAlive, RemovedById, Items, MitmSpec.NextRequest, MitmSpec.CloseWhenWritten;
      OnTransaction();
      if KeepAlive(currentTransaction.hasRequest, proxy.requests[currentTransaction.ref], res) {
        NextRequest();
      } else {
        CloseWhenWritten();
      }
    }

    method NextRequest()
      modifies this`clientAccumulated, this`upstreamAccumulated, this`currentTransaction, this`ops
      ensures View() == MitmSpec.NextRequest(old(View()))
    {
      hide MitmSpec.ReadClient;
      ForgetTransaction();
      ReadClient();
    }

    method ForgetTransaction()
      modifies this`clientAccumulated, this`upstreamAccumulated, this`currentTransaction
      ensures View() == old(View()).(clientAcc := "", upstreamAcc := "", cur := NO_TXN)
    {
      clientAccumulated, upstreamAccumulated := "", "";
      currentTransaction := NO_TXN;
    }

    method CloseWhenWritten()
      requires proxy.manager.Valid()
      modifies this`isClosed, this`closeAfterWrite
      modifies proxy.manager`queue, proxy.manager`tickets, proxy.manager`notices
      ensures proxy.manager.Valid() && View() == MitmSpec.CloseWhenWritten(old(View()))
      ensures proxy.manager.tickets == AfterClose(old(View()), View(), old(proxy.manager.tickets))
    {
      hide RemovedById, Items;
      closeAfterWrite := true;
      if clientWriteQueue == [] { Close(); }
    }

    method HandleClientWrite(ec: Ec)
      requires proxy.manager.Valid() && (!isClosed ==> clientWriteQueue != [])
      modifies this, proxy.manager`queue, proxy.manager`tickets, proxy.manager`notices
      ensures proxy.manager.Valid() && View() == OnClientWritten(old(View()), ec)
      ensures proxy.manager.tickets == AfterClose(old(View()), View(), old(proxy.manager.tickets))
    {
      hide RemovedById, Items, Without, ErrorText, MitmSpec.DoClientWrite;
      if isClosed { return; }
      if ec != Ok { Close(); return; }
      clientSent := clientSent + [clientBuf];
      clientWriteQueue := clientWriteQueue[1..];
      if clientWriteQueue != [] { DoClientWrite(); return; }
      if closeAfterWrite { Close(); }
    }
  }
}
