/** The Forward button of the proxy tab (src/tui/ProxyTab.cpp): the edited text replaces
    the peeked request, and the front of the queue is forwarded. */
module ProxyTabs {
  import opened Text
  import opened HttpRequests
  import opened MessageLaws
  import opened MitmSpec
  import opened World
  import opened InterceptManagers
  import opened MitmSessions
  import opened TextEditors

  /** What the button does: the front request object is overwritten and its callback made. */
  ghost predicate Forwarded(q: seq<Item>, requests: seq<HttpRequest>, fired: seq<(nat, Action)>, text: string,
                            q': seq<Item>, requests': seq<HttpRequest>, fired': seq<(nat, Action)>)
  {
    if q == [] then q' == q && requests' == requests && fired' == fired
    else
      && q[0].ref < |requests| && requests' == requests[q[0].ref := Parsed(text)]
      && q' == q[1..] && fired' == fired + [(q[0].t, Forward)]
  }

  /** With nothing between the peek and the forward, the request whose callback is made
      is the edited one. */
  method OnForward(editor: TextEditor, proxy: Proxy, ghost th: nat)
    requires editor.Valid() && proxy.manager.Valid() && ThreadIdle(proxy.manager.tickets, th)
    requires forall x | x in proxy.manager.queue :: x.ref < |proxy.requests|
    modifies proxy`requests
    modifies proxy.manager`queue, proxy.manager`tickets, proxy.manager`fired, proxy.manager`notices
    ensures Forwarded(old(proxy.manager.queue), old(proxy.requests), old(proxy.manager.fired),
                      Unlines(editor.lines, CRLF),
                      proxy.manager.queue, proxy.requests, proxy.manager.fired)
  {
    hide Parsed, Items, Unlines, FirstQueued, FirstTaken, ThreadIdle, TookFront, Delivered, IsDocument;
    ghost var q, requests := proxy.manager.queue, proxy.requests;
    FrontItem(proxy.manager.tickets);
    var cur := proxy.manager.PeekCurrent();
    var editedText := editor.GetText();
    if cur.Some? {
      var edited := ParseRawHttpRequest(editedText);
      proxy.requests := proxy.requests[cur.value.ref := edited];
    }
    var ok := proxy.manager.ForwardCurrent(th);
  }

  /** The forwarded request is sent as it stands in the editor exactly when the text has
      a blank line and no marker. */
  lemma {:induction false} ForwardedAsEdited(
      lines: seq<string>, q: seq<Item>, requests: seq<HttpRequest>, fired: seq<(nat, Action)>,
      q': seq<Item>, requests': seq<HttpRequest>, fired': seq<(nat, Action)>)
    requires IsDocument(lines) && q != []
    requires Forwarded(q, requests, fired, Unlines(lines, CRLF), q', requests', fired')
    ensures Serialize(requests'[q[0].ref]) == Unlines(lines, CRLF)
            <==> Unmarked(Unlines(lines, CRLF)) && Contains(Unlines(lines, CRLF), BLANK_LINE)
  {
    EditedTextIsSent(lines);
  }

  /** What a peek shows is the front of the queue. */
  lemma FrontItem(ts: seq<Ticket>)
    ensures var f, q := FirstQueued(ts, 0), Items(ts, InQueue);
            (f < |ts| <==> q != []) && (q != [] ==> q[0] == Item(ts[f].id, ts[f].ref, f))
  {
    EmptyIff(ts);
    var f := FirstQueued(ts, 0);
    if f < |ts| { FrontLeaves(ts, InQueue, f, Removed); }
  }
}
