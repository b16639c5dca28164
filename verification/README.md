# BurpTUI, modelled and verified

BurpTUI is an intercepting HTTP proxy with a terminal user interface. This project
models the parts of it that carry invariants of their own and proves what they keep:

* the HTTPS session as a machine of completion handlers, the intercept queue, and all
  sessions together under every interleaving with the user interface's threads;
* the text editor, as a refinement of a one-dimensional editor;
* requests as text: the printer, the parser, the Repeater's normaliser, and the claim
  that edited text is what goes on the wire;
* Base64 with an accumulator that overflows;
* the certificate cache, as a truncated recency list and as a concurrent protocol;
* the bounded event queue with one condition variable, and the update signal;
* the assembler behind the HTTP parser's callbacks.

`dafny verify dfyconfig.toml` checks everything.

## How it is laid out

| files | what they hold |
|---|---|
| `Text`, `HttpRequest`, `MessageLaws`, `Repeater` | texts and lines; printing and parsing requests; the laws between them; the normaliser |
| `MessageParts`, `Erasure` | each part of a message for every text; what erasing the marks does to it |
| `FlatText`, `EditorSteps`, `TextEditor`, `ProxyTab` | the one-dimensional editor; one lemma per change of the line array; the editor object; the Forward button |
| `Encoding` | Base64 |
| `MitmSpec`, `MitmSteps`, `MitmSession` | the session's handlers as functions; what each keeps; the session object |
| `MitmLaws` | what each handler leads to and when exactly a session closes, in literal terms |
| `World`, `WorldSteps`, `WorldRuns`, `WorldAccounts`, `WorldTickets`, `WorldClient` | all sessions, requests, tickets and ids; the invariant; theorems over whole runs |
| `InterceptManager` | the queue object, against the tickets |
| `CertCacheSpec`, `CertCacheRuns`, `CertCacheLaws`, `CertCache` | the cache as values; every interleaving; its steps by positions and uses; the object with its list iterators |
| `EventQueue`, `EventQueueLimit`, `EventQueueProgress`, `UpdateSignal` | the two small protocols: safety, its exact limit, progress |
| `HttpParser`, `HttpParserObjects` | the callback assembler |

A run is a sequence of events. An event that is not possible in a state changes
nothing, so the theorems speak of every sequence. An intercepted request is a *ticket*;
the manager's deque is the tickets still queued, oldest first.

## Where the code does less than one might expect

* `MessageLaws.BodyExact`: the parsed body is what follows the blank line, except
  exactly when the (marker-free) text ends in LF followed by CRs and there is a body:
  then its last LF is lost, because the check looks at the text before CRs are removed.
  `MessageLaws.StrayCrLosesNewline` is the smallest such text.
* `HttpRequests.NormalTextFixes`: " (HTTP)" or " (HTTPS)" is silently taken out of a text
  wherever it first stands, in the body too (`MessageLaws.MarkedBodyChanged`); a text is
  sent as it is exactly when it has neither, is CRLF-normal and has a blank line.
* `Erasure.SentLikeCleaned`: only the first mark of each kind is taken out. A text whose
  cleaned form still holds a mark is not sent like that form: one mark goes out with the
  request (`Erasure.SecondMarkStays`).
* `TextEditors.ReleaseEndsOutside`: a mouse selection ends when the button is released
  outside the box and not when it is released inside: there the drag test comes first
  and takes the event (src/tui/TextEditor.cpp:200-206), so what lines 210-223 were to
  do, drop a click's selection or copy it, never happens. `TextEditors.Click` is a press
  and a release inside; `TextEditors.SelectingIs` says when a selection is in progress
  after any mouse events.
* `WorldRuns.TurnToken`, buffers of writes: the fact that a write in flight has its buffer
  in the queue is about TLS writes. The raw error response of
  src/proxy/MitmSession.cpp:149-154 is written from a local string that is gone when the
  function returns; the model counts that write and claims nothing of its bytes.
* `EventQueueLimit.SafeExactly`: the event queue cannot get stuck exactly when there are
  no more producers than places; a run that puts everyone to sleep is constructed for
  every larger number.
* `HttpParsers.HeadersRecovered`: the header list comes out as sent exactly when every
  name is non-empty; a nameless header's value is carried into the next one
  (`HttpParsers.NamelessHeaderMerges`). This is a fact about the callbacks only: llhttp
  rejects a header line without a name.
* `HttpParsers.UnmarkedWhenAligned`: a response body over the limit carries no truncation
  marker exactly when some chunks end right at the limit (`HttpParsers.AlignedBodyUnmarked`).
* `Encoding.EncodeInverts`: encoding inverts decoding exactly on canonical texts; the
  decoder ignores everything from the first foreign character on, and needs no padding
  (`Encoding.UnpaddedNotRestored`).

## Model

| member | source | states |
|---|---|---|
| WorldSteps.AlwaysHolds | src/proxy/MitmSession.cpp:37-475 | the invariant of all sessions, tickets, reports and draws holds after every sequence of events |
| WorldRuns.TurnToken | src/proxy/MitmSession.cpp:255-436 | in every run an open joined session waits for exactly one of client read, decision, upstream write, upstream read (none when closing after a write), and a decision has a queued, taken or posted ticket of its own request behind it; the upstream queue has at most one element; each TLS write in flight has the queue's front as its buffer |
| WorldRuns.JoinsOnce | src/proxy/MitmSession.cpp:211-243 | the handshake join has fired once if both are done and not otherwise, in either order; before it nothing is read or queued |
| WorldRuns.ClosedIsFinal | src/proxy/MitmSession.cpp:37-63 | after a close nothing of the session changes any more, only pending operations run out |
| WorldRuns.UpstreamBytes | src/proxy/MitmSession.cpp:271-311 | the bytes queued upstream are, in order, the serialised requests that arrived with intercept off or whose forward continuation ran while the session was open |
| WorldAccounts.AccountIs | src/proxy/MitmSession.cpp:271-332 | that account lists each request once, in arrival order, only this session's, and no dropped, removed or undecided one |
| WorldAccounts.SentExactly | src/proxy/MitmSession.cpp:279-311 | while a session is open, a request of it is in the account if and only if it was never intercepted or its forward ran |
| WorldClient.DownstreamBytes | src/proxy/MitmSession.cpp:390-475 | completed and queued client writes are the chunks read from the server in order, then at most one drop response, and that one is last |
| WorldClient.ReportsUnique | src/proxy/MitmSession.cpp:131-144 | a non-zero id is reported at most once over all sessions, by the session and with the request that drew it |
| WorldClient.IdsDistinct | src/proxy/Session.cpp:110-113 | ids drawn from the shared counter are positive and pairwise distinct over all kinds of sessions |
| WorldClient.ObjectKept | src/tui/ProxyTab.cpp:48-55 | in any run nothing but an edit changes a request object |
| WorldClient.EditedTextGoesOut | src/tui/ProxyTab.cpp:48-55 | after an edit and any run without another edit of it, forwarding sends the normal form of the edited text, which is the text itself exactly when it is CRLF-normal, unmarked and has a blank line |
| WorldClient.UneditedGoesOut | src/proxy/MitmSession.cpp:272-297 | an intercepted request that is never edited is forwarded as it was read, whatever happens in between |
| WorldClient.RequestKept | src/proxy/MitmSession.cpp:273-304 | the item queued for a request keeps its session and its request object, which holds what was read until it is edited |
| WorldTickets.FiresOnce | src/proxy/InterceptManager.cpp:66-147 | the number of times a callback and its continuation have run is determined by the ticket's fate: never when queued, taken or removed, once when decided |
| WorldTickets.TicketLife | src/proxy/InterceptManager.cpp:66-147 | an item is in exactly one of its states, never goes back, and gets the action of the thread that took it |
| WorldTickets.RemovedByOwner | src/proxy/MitmSession.cpp:37-43 | an item is removed only by the close of its own session, HTTPS or plain |
| WorldTickets.PlainCloseMeans | src/proxy/Session.cpp:39-44 | the close of a plain session removes the queued item with its id and changes nothing else |
| WorldTickets.DeliveredInOrder | src/proxy/InterceptManager.cpp:100-115 | one thread calls back the older of two items first, in every interleaving |
| WorldTickets.TakesAllPending | src/proxy/InterceptManager.cpp:100-132 | once a forwardAll or dropAll is over, in any run, everything that was pending at its lock has been called back with its action: nothing removed, nothing decided otherwise |
| WorldTickets.FrontStays | src/tui/ProxyTab.cpp:48-55 | what was peeked is what a forward takes, as long as it is still pending |
| WorldSteps.HandledStep | src/proxy/MitmSession.cpp:80-475 | every handler keeps the session invariant and sends the client exactly the chunk it read |
| WorldSteps.ArriveKeeps | src/proxy/MitmSession.cpp:271-304 | accepting a request keeps the whole system's invariant |
| WorldSteps.DecisionIsCurrent | src/proxy/MitmSession.cpp:289-302 | a continuation of an open session finds the request it was posted for as the current transaction |
| WorldSteps.DecisionRuns | src/proxy/MitmSession.cpp:289-302 | a continuation does nothing to a closed session, forwards its own request's text, or drops with one report and one response |
| WorldSteps.ClosingRemoves | src/proxy/MitmSession.cpp:37-43 | closing removes exactly the queued item of the closing session |
| WorldSteps.RunKeeps | src/proxy/MitmSession.cpp:289-302 | running a continuation keeps the whole system's invariant |
| MitmSteps.ArrivalStep | src/proxy/MitmSession.cpp:272-311 | an accepted request makes the session busy with a fresh unreported transaction, and queues its text only if not intercepted |
| MitmSteps.ForwardStep | src/proxy/MitmSession.cpp:293-297 | a forward queues the current text and moves the turn to the upstream write |
| MitmSteps.DropStep | src/proxy/MitmSession.cpp:298-301 | a drop reports once, queues the error response last and ends the turn |
| MitmSteps.UpstreamWrittenStep | src/proxy/MitmSession.cpp:345-358 | a completed upstream write conserves the bytes and passes the turn to the upstream read |
| MitmSteps.UpstreamReadStep | src/proxy/MitmSession.cpp:370-436 | a read chunk is queued for the client whole; a complete response ends the turn or starts the next |
| MitmSteps.AnsweredStep | src/proxy/MitmSession.cpp:398-429 | a complete response is reported once with its request, and the session is then ready for the next request as for the first, or closing with the client write still going |
| MitmSteps.ClientWrittenStep | src/proxy/MitmSession.cpp:458-475 | a completed client write conserves the bytes; the close after the last write happens only when the queue has drained |
| MitmLaws.ClosesExactly | src/proxy/MitmSession.cpp:37-475 | in every run an open session closes in a step if and only if the step is one of its own handlers and: the timer fired; an established write, handshake, read or write failed; the context is missing; an incomplete request reached 1048576 bytes; the raw error response was written; or the last client write ended with the close asked for |
| MitmLaws.AfterUpstreamWrite | src/proxy/MitmSession.cpp:345-358 | once an open session has written its request it is open with nothing queued upstream, the buffer appended to what was sent, and the response read outstanding |
| MitmLaws.AfterResponse | src/proxy/MitmSession.cpp:398-429 | the session goes on to the next request, with everything of this one forgotten, if and only if the version is "HTTP/1.1" and neither first Connection header contains "close", or it is another and one contains "keep-alive"; else it closes after the writes queued; the response is reported once either way |
| MitmLaws.FirstValueUnique | src/proxy/MitmSession.cpp:402-403 | "the first header of that name", by its index, with the empty value if there is none, is one value; it is the one read (`MitmLaws.HeaderValueIsFirst`) |
| MitmLaws.AfterRequest | src/proxy/MitmSession.cpp:271-311 | a complete request gets the next id; with intercept off its printed text is being written, with intercept on nothing is, and the decision is outstanding |
| MitmLaws.AfterPartialRead | src/proxy/MitmSession.cpp:265-268 | an incomplete read is accumulated, and the session reads on exactly below 1048576 bytes |
| MitmLaws.AfterChunk | src/proxy/MitmSession.cpp:390-436 | a chunk that does not complete the response is queued for the client and the next is read |
| MitmLaws.AfterReadError | src/proxy/MitmSession.cpp:371-388 | a failed read closes; an unreported response that the end of the stream completes is reported |
| MitmLaws.AfterClientWrite | src/proxy/MitmSession.cpp:458-475 | the written chunk leaves the queue; the next is written, or the session closes if nothing is left and a close was asked for |
| MitmLaws.AfterDecision | src/proxy/MitmSession.cpp:289-302 | a forward puts the request object's text in flight; a drop reports once and queues the 502 answer, its text spelled out |
| MitmLaws.AfterResolved | src/proxy/MitmSession.cpp:84-93 | resolving leads to the connect, failing to the report and the raw answer |
| MitmLaws.AfterConnected | src/proxy/MitmSession.cpp:96-112 | connecting leads to the established write, failing to the report and the raw answer |
| MitmLaws.AfterEstablished | src/proxy/MitmSession.cpp:114-209 | the established write leads to both handshakes, or the close |
| MitmLaws.AfterClientHandshake | src/proxy/MitmSession.cpp:211-243 | the first handshake waits for the other, the second starts the client read |
| MitmLaws.AfterUpstreamHandshake | src/proxy/MitmSession.cpp:225-243 | the same for the server's handshake |
| MitmLaws.OthersUntouched | src/proxy/MitmSession.cpp:80-475 | a handler changes its own session only |
| MitmSessions.MitmSession.constructor | src/proxy/MitmSession.cpp:9-35 | a started session is resolving its host and nothing else |
| MitmSessions.MitmSession.Close | src/proxy/MitmSession.cpp:37-43 | closes once and removes the current transaction from the queue |
| MitmSessions.MitmSession.SendErrorResponse | src/proxy/MitmSession.cpp:131-156 | reports the transaction, then queues the answer over TLS if the client handshake is done, else starts one write on the raw socket |
| MitmSessions.MitmSession.HandleResolved | src/proxy/MitmSession.cpp:84-93 | refines the handler of the specification, error path included |
| MitmSessions.MitmSession.HandleConnected | src/proxy/MitmSession.cpp:96-112 | refines the handler of the specification, error path included |
| MitmSessions.MitmSession.HandleEstablished | src/proxy/MitmSession.cpp:114-209 | starts both handshakes, or closes without a certificate context |
| MitmSessions.MitmSession.HandleClientHandshake | src/proxy/MitmSession.cpp:211-223 | joins if the other handshake is done |
| MitmSessions.MitmSession.HandleUpstreamHandshake | src/proxy/MitmSession.cpp:225-237 | joins if the other handshake is done |
| MitmSessions.MitmSession.HandleClientRead | src/proxy/MitmSession.cpp:255-323 | draws an id and a request object for a complete request and queues a ticket if intercepted; reads on, or closes at the size limit |
| MitmSessions.MitmSession.HandleDecision | src/proxy/MitmSession.cpp:289-302 | forwards or drops the current transaction, or does nothing when closed |
| MitmSessions.MitmSession.HandleUpstreamWrite | src/proxy/MitmSession.cpp:345-358 | pops the written buffer and writes the next or reads the response |
| MitmSessions.MitmSession.HandleUpstreamRead | src/proxy/MitmSession.cpp:370-436 | relays the chunk, reports a complete response once, resets for keep-alive or closes |
| MitmSessions.MitmSession.HandleClientWrite | src/proxy/MitmSession.cpp:458-475 | pops the written buffer and writes the next or closes if asked to |
| InterceptManagers.ItemsAre | src/proxy/InterceptManager.cpp:25-48 | the pending items are an order-preserving subsequence of the arrivals, none missing |
| InterceptManagers.FrontLeaves | src/proxy/InterceptManager.cpp:66-75 | deciding the oldest pending ticket takes exactly the front of the deque |
| InterceptManagers.ItemsRemoved | src/proxy/InterceptManager.cpp:134-144 | removing an id from the tickets removes it from the deque and keeps the order of the rest |
| InterceptManagers.FiredOne | src/proxy/InterceptManager.cpp:66-81 | deciding a ticket and making its callback keeps: each ticket's callback has been made exactly once, with its action, if it is decided, and never otherwise (part of every method's invariant) |
| InterceptManagers.FiredNone | src/proxy/InterceptManager.cpp:25-48 | so does everything that decides nothing: arriving, taking, removing |
| InterceptManagers.DeliverAndFire | src/proxy/InterceptManager.cpp:109-113 | the next callback of a thread is that of the oldest request it still holds |
| InterceptManagers.FrontDecided | src/proxy/InterceptManager.cpp:66-81 | taking the front and calling back makes the callback of the front |
| InterceptManagers.InterceptManager.SetInterceptEnabled | src/proxy/InterceptManager.cpp:11-23 | switching off makes each pending item's own callback once with Forward, in order; switching on decides nothing |
| InterceptManagers.InterceptManager.InterceptRequest | src/proxy/InterceptManager.cpp:25-48 | appends the item and notifies |
| InterceptManagers.InterceptManager.PeekCurrent | src/proxy/InterceptManager.cpp:60-64 | gives the oldest pending request, if any |
| InterceptManagers.InterceptManager.HasPending | src/proxy/InterceptManager.cpp:50-53 | true exactly when a ticket is queued |
| InterceptManagers.InterceptManager.ForwardCurrent | src/proxy/InterceptManager.cpp:66-81 | calls back exactly the front with Forward, or returns false on an empty queue |
| InterceptManagers.InterceptManager.DropCurrent | src/proxy/InterceptManager.cpp:83-98 | calls back exactly the front with Drop, or returns false on an empty queue |
| InterceptManagers.InterceptManager.ForwardAll | src/proxy/InterceptManager.cpp:100-115 | the callbacks made are, after those made before, those of the pending items one by one in order, with Forward |
| InterceptManagers.InterceptManager.DropAll | src/proxy/InterceptManager.cpp:117-132 | the callbacks made are, after those made before, those of the pending items one by one in order, with Drop |
| InterceptManagers.InterceptManager.RemoveById | src/proxy/InterceptManager.cpp:134-147 | the items with another id stay, in order, and no others; no callback runs; notifies only if there was one |
| TextEditors.TextEditor.OnKey | src/tui/TextEditor.cpp:258-379 | key by key: Backspace drops the character before the offset, Delete the one at it, Return, Tab and typed text insert a line feed, four spaces and the text without CRs, Left and Right move by one, Up, Down and the page keys to the same column by one and ten lines, Home and End to the line's ends |
| TextEditors.TypeAndErase | src/tui/TextEditor.cpp:258-379 | typing any text and pressing Backspace once per non-CR character restores lines and cursor, through the key dispatch |
| TextEditors.TextEditor.OnEditingKey | src/tui/TextEditor.cpp:325-379 | the five keys that change the text, as relations on text and offset |
| TextEditors.TextEditor.OnMovingKey | src/tui/TextEditor.cpp:259-322 | the eight keys that only move, as relations on rows, columns and line ends |
| TextEditors.ErasingKeys | src/tui/TextEditor.cpp:338-364 | what Backspace and Delete leave, in slices of the text |
| TextEditors.InsertingKeys | src/tui/TextEditor.cpp:325-379 | what Return, Tab and typed text put in |
| TextEditors.ArrowKeys | src/tui/TextEditor.cpp:277-298 | Left and Right move the offset by one within the text |
| FlatText.StripCrIs | src/tui/TextEditor.cpp:150-151 | stripping takes out every CR and nothing else |
| FlatText.StripCrConcat | src/tui/TextEditor.cpp:150-151 | and piece by piece |
| TextEditors.MouseMeans | src/tui/TextEditor.cpp:167-252 | each mouse event's effect on the selection in progress |
| TextEditors.WordChars | src/tui/TextEditor.cpp:119-121 | the word characters by their codes |
| TextEditors.TextEditor.SetText | src/tui/TextEditor.cpp:19-49 | the lines are the text's lines without CR, the cursor at the start, no selection |
| TextEditors.TextEditor.GetText | src/tui/TextEditor.cpp:51-60 | the lines joined with CRLF |
| TextEditors.TextEditor.InsertString | src/tui/TextEditor.cpp:147-161 | inserts the string without its CRs at the flat offset |
| TextEditors.TextEditor.OnReturn | src/tui/TextEditor.cpp:325-336 | inserts a line feed at the flat offset |
| TextEditors.TextEditor.OnBackspace | src/tui/TextEditor.cpp:338-352 | erases the character before the flat offset, across lines |
| TextEditors.TextEditor.OnDelete | src/tui/TextEditor.cpp:354-364 | erases the character at the flat offset, across lines |
| TextEditors.TextEditor.OnLeft | src/tui/TextEditor.cpp:277-287 | one position back in the flat text |
| TextEditors.TextEditor.OnRight | src/tui/TextEditor.cpp:288-298 | one position on in the flat text |
| TextEditors.TextEditor.OnUp | src/tui/TextEditor.cpp:259-267 | the same column of the line before, or its end |
| TextEditors.TextEditor.OnDown | src/tui/TextEditor.cpp:268-276 | the same column of the next line, or its end |
| TextEditors.TextEditor.GetSelectedText | src/tui/TextEditor.cpp:84-112 | the text between the two ends with CRLF line ends, whichever end is the anchor |
| TextEditors.TextEditor.OnMouse | src/tui/TextEditor.cpp:167-252 | presses start a selection, left events inside drag it, a release outside ends it, the wheel only scrolls, only a right press copies; every shown selection has valid ends |
| TextEditors.ReleaseEndsOutside | src/tui/TextEditor.cpp:200-250 | a release ends a selection in progress if and only if the pointer is outside the box |
| TextEditors.SelectingIs | src/tui/TextEditor.cpp:186-250 | after any mouse events a selection is in progress if and only if there was a press inside with no release outside since |
| TextEditors.Click | src/tui/TextEditor.cpp:186-206 | a press and a release inside leave the selection in progress, shown and empty |
| TextEditors.TextEditor.RightClick | src/tui/TextEditor.cpp:228-246 | copies the selection if one is shown, else the word, else everything |
| TextEditors.TextEditor.GetWordAt | src/tui/TextEditor.cpp:114-134 | the longest run of word characters around the position, nothing off a word |
| FlatText.ViewInjective | src/tui/TextEditor.cpp:51-60 | lines and cursor are determined by the joined text and the flat offset |
| FlatText.InsertThenErase | src/tui/TextEditor.cpp:147-161 | inserting any string and then one Backspace per non-CR character restores lines and cursor exactly |
| FlatText.BetweenText | src/tui/TextEditor.cpp:98-111 | the selected pieces joined by line feeds are the flat substring between the two ends |
| EditorSteps.SplitAt | src/tui/TextEditor.cpp:325-332 | splitting a line is inserting a line feed |
| EditorSteps.JoinAbove | src/tui/TextEditor.cpp:342-347 | joining with the line above is erasing the line feed before the cursor |
| EditorSteps.JoinBelow | src/tui/TextEditor.cpp:357-359 | joining with the line below is erasing the line feed at the cursor |
| ProxyTabs.OnForward | src/tui/ProxyTab.cpp:48-55 | the peeked front's request object becomes the parsed editor text and exactly its callback is made |
| ProxyTabs.ForwardedAsEdited | src/tui/ProxyTab.cpp:48-55 | and it is sent as it stands if and only if the text has a blank line and no marker |
| HttpRequests.SerializeRequest | src/http/HttpRequest.cpp:12-22 | the raw override, or start line, headers, blank line and body |
| HttpRequests.ParseRawHttpRequest | src/http/HttpRequest.cpp:24-102 | the loops compute the parse given by the lines of the normalised text |
| HttpRequests.NormalizeMessage | src/http/HttpRequest.cpp:27-52 | erases one marker of each kind, forces CRLF, closes the header section |
| HttpRequests.NormalTextShape | src/http/HttpRequest.cpp:34-53 | the normal form is CRLF-normal and has a blank line, for any input |
| Erasure.SentIs | src/http/HttpRequest.cpp:29-53 | what is sent is the text with the first " (HTTPS)" and then the first " (HTTP)" taken out where they stand, CRLF forced, and a blank line added if there is none |
| Erasure.CleanedToOne | src/http/HttpRequest.cpp:29-32 | every text is cleaned so to exactly one text |
| Erasure.SentAsCleaned | src/http/HttpRequest.cpp:27-54 | the cleaned text itself is sent if and only if it is CRLF-normal and has a blank line |
| Erasure.ParsedAsCleaned | src/http/HttpRequest.cpp:24-102 | if no mark is left, the whole parse is that of the cleaned text |
| Erasure.SentLikeCleaned | src/http/HttpRequest.cpp:29-32 | the text is sent like the cleaned text by itself if and only if no mark is left in that |
| Erasure.HttpsMarkErased | src/http/HttpRequest.cpp:29-30 | a " (HTTPS)" b, with no " (HTTP)", is sent like a b if and only if a b has no second " (HTTPS)", and is sent as a b if that is normal |
| Erasure.HttpMarkErased | src/http/HttpRequest.cpp:31-32 | the same for " (HTTP)" |
| Erasure.BothMarksErased | src/http/HttpRequest.cpp:29-32 | the same for both, " (HTTPS)" first |
| Erasure.SecondMarkStays | src/http/HttpRequest.cpp:29-32 | two marks of one kind: one stays in what is sent |
| Text.CrlfFormSnoc | src/http/HttpRequest.cpp:36-44 | character by character: a CR is dropped, an LF becomes CRLF, everything else stays |
| Text.ContainsIsWithin | src/http/HttpRequest.cpp:29-32 | finding a pattern means the text is something, the pattern, and something |
| MessageParts.PrintedWithoutHeaders | src/http/HttpRequest.cpp:12-21 | a request without headers is printed as its three start words, a blank line and its body; an edited one as the edited text |
| MessageParts.PrintedWithHeader | src/http/HttpRequest.cpp:18-19 | one header more is one line more, in front of the blank line |
| MessageParts.StartWords | src/http/HttpRequest.cpp:58-66 | the first three words of the start line, however spaced; missing ones are GET, / and HTTP/1.1 |
| MessageParts.PartsParsed | src/http/HttpRequest.cpp:55-92 | for every edited text: the first line of what is sent gives the start words, and the lines up to the blank one that have a colon give the headers in order |
| HttpRequests.NormalTextFixes | src/http/HttpRequest.cpp:27-53 | a text is left alone if and only if it has no marker, is CRLF-normal and has a blank line |
| HttpRequests.NormalTextCounts | src/http/HttpRequest.cpp:27-53 | a normal form has as many CRs as LFs, and is at most four characters longer than the text without its markers, its CRs dropped and one put before each LF |
| Text.NormalFormFixes | src/http/HttpRequest.cpp:34-44 | forcing CRLF changes nothing if and only if every CR and LF is part of a CRLF |
| Text.LinesRoundTrip | src/tui/TextEditor.cpp:19-60 | splitting joined lines gives the lines back |
| MessageLaws.SentBytesAreNormalForm | src/http/HttpRequest.cpp:12-53 | whatever is edited, the bytes sent are its normal form, and sending them again changes nothing if unmarked |
| MessageLaws.BodyExact | src/http/HttpRequest.cpp:68-99 | the parsed body is what follows the first CRLFCRLF, if and only if the text does not end in a stray CR after its last LF with a body |
| MessageLaws.StrayCrLosesNewline | src/http/HttpRequest.cpp:96-99 | a concrete text whose body loses its last line feed |
| MessageLaws.EditedTextIsSent | src/http/HttpRequest.cpp:12-15 | text from the editor is serialised byte for byte if and only if it has a blank line and no marker; unmarked, its parsed body is what follows the blank line of the bytes sent |
| MessageLaws.MarkedBodyChanged | src/http/HttpRequest.cpp:29-32 | a marker at the end of any body is taken out of what is sent |
| MessageLaws.RoundTrip | src/http/HttpRequest.cpp:12-102 | parsing a printed well-formed request recovers method, URL, version, header list and body |
| Repeater.NormalizeForSending | src/tui/RepeaterManager.cpp:150-191 | the in-place edits compute the normalised text |
| Repeater.NormalisedLines | src/tui/RepeaterManager.cpp:175-189 | the result is the normal form with the missing header lines after the start line and nothing else touched |
| Erasure.NormalisedIs | src/tui/RepeaterManager.cpp:150-191 | the lines sent are those of the cleaned and closed text, with "Connection: close" and then the Host line after the start line unless their names occur already |
| Erasure.NormalisedAsCleaned | src/tui/RepeaterManager.cpp:153-157 | a text with marks is normalised as the cleaned one, if no mark is left |
| Repeater.NormalisedMessage | src/tui/RepeaterManager.cpp:150-191 | CRLF-normal, terminated, names present, start line kept, every byte after the first CRLFCRLF kept |
| Repeater.NormalisedIdempotent | src/tui/RepeaterManager.cpp:150-191 | normalising again, with any host, changes nothing when no marker remains |
| Encoding.Base64Encode | src/util/Encoding.cpp:11-27 | equals the group-of-three encoding with padding (section 4 of RFC 4648) for inputs of any length, with a wrapping 32-bit accumulator |
| Encoding.Base64Decode | src/util/Encoding.cpp:29-48 | equals unpacking the sextets before the first foreign character, with a wrapping 32-bit accumulator |
| Encoding.DecodeInverts | src/util/Encoding.cpp:11-48 | decoding inverts encoding for every byte string |
| Encoding.EncodeInverts | src/util/Encoding.cpp:11-48 | encoding inverts decoding if and only if the text is canonical |
| Encoding.Alphabet | src/util/Encoding.cpp:8-9 | the alphabet by the codes of its characters |
| Encoding.GroupNumber | src/util/Encoding.cpp:16-23 | three bytes and their four sextets are the same 24-bit number |
| Encoding.EncodedGroup | src/util/Encoding.cpp:16-23 | each group of three is encoded by itself |
| Encoding.EncodedTail | src/util/Encoding.cpp:24-25 | one or two bytes left over: zero bits fill the last sextet, equals signs the group |
| Encoding.DecodedUpTo | src/util/Encoding.cpp:38-39 | decoding stops at the first character outside the alphabet |
| Encoding.DecodedTail | src/util/Encoding.cpp:40-45 | one character left over gives nothing, two and three the bytes of their first eight and sixteen bits |
| Encoding.UnpaddedNotRestored | src/util/Encoding.cpp:11-48 | a concrete text that decodes and does not come back |
| CertCacheRuns.AlwaysRecent | src/proxy/CertCache.cpp:67-161 | in every interleaving the resident hosts in list order are the first maxEntries distinct hosts by last insertion or promotion since the last clear; list and map agree without duplicates |
| CertCacheRuns.ResidencyConstant | src/proxy/CertCache.cpp:73-92 | while a host stays resident all its lookups by all threads get the same key pair and context and nothing is generated for it |
| CertCacheRuns.ResidencyStarts | src/proxy/CertCache.cpp:94-122 | a residency starts only with one successful generate, whose result is cached and answered |
| CertCacheRuns.ResidencyEnds | src/proxy/CertCache.cpp:104-109 | it ends only by a clear, or as the oldest of a full cache |
| CertCacheLaws.ListedWhenUsed | src/proxy/CertCache.cpp:67-161 | a host is in the recency list if and only if it was inserted or promoted since the last clear |
| CertCacheLaws.ListedLatestFirst | src/proxy/CertCache.cpp:67-161 | and the list is in the order of the last such uses, the latest first |
| CertCacheLaws.LookupMeans | src/proxy/CertCache.cpp:67-80 | the shared part: no pair and no context for an empty host, the entry of a resident one, else on to the exclusive part; nothing moves |
| CertCacheLaws.FinishMeans | src/proxy/CertCache.cpp:82-123 | the exclusive part: a host cached meanwhile moves to the front; an incomplete pair is answered without context and not cached; a complete one is answered and, unless the capacity is zero, put in front, the last of a full cache going |
| CertCacheLaws.TouchMeans | src/proxy/CertCache.cpp:153-161 | a resident host moves to the front, the others keeping their order; otherwise nothing |
| CertCacheSpec.PromoteRecent | src/proxy/CertCache.cpp:86-92 | relinking a resident host at the front keeps the recency list |
| CertCacheSpec.InsertRecent | src/proxy/CertCache.cpp:103-119 | evicting the last and pushing the new host keeps the recency list, also for capacity zero |
| CertCaches.CertCache.GetEntry | src/proxy/CertCache.cpp:67-123 | a hit is answered without reordering, an empty host with nothing, a miss by the exclusive part; stored iterators stay valid |
| CertCaches.CertCache.SlowLookup | src/proxy/CertCache.cpp:82-123 | the double check promotes, a failed generate caches nothing, a successful one evicts and inserts |
| CertCaches.CertCache.Touch | src/proxy/CertCache.cpp:153-161 | promotes a resident host and no other |
| CertCaches.CertCache.Clear | src/proxy/CertCache.cpp:147-151 | empties list and map |
| CertCaches.CertCache.Contains | src/proxy/CertCache.cpp:133-136 | true exactly for resident hosts |
| CertCaches.CertCache.Size | src/proxy/CertCache.cpp:138-141 | the number of map items is the length of the list |
| CertCaches.EraseHost | src/proxy/CertCache.cpp:88 | erasing through the stored iterator erases exactly that host |
| EventQueues.NeverStuck | src/util/EventQueue.hpp:14-30 | with at most as many producers as places no interleaving, spurious wake-ups included, leaves everyone asleep or the consumer asleep on an unannounced item |
| EventQueues.NotificationArrives | src/util/EventQueue.hpp:18-19 | and a producer's notification then wakes the consumer |
| EventQueues.AlwaysOrdered | src/util/EventQueue.hpp:14-30 | items leave in push order and the size stays within the bound |
| EventQueues.AlwaysAttended | src/util/EventQueue.hpp:14-30 | the counting invariant behind it |
| EventQueues.EventQueue.TryPush | src/util/EventQueue.hpp:14-19 | the critical section appends the item exactly when there is room, else the thread sleeps |
| EventQueues.EventQueue.TryPop | src/util/EventQueue.hpp:22-29 | the critical section gives and removes the oldest item exactly when there is one, else the thread sleeps |
| EventQueueLimit.SafeExactly | src/util/EventQueue.hpp:14-30 | safe in all interleavings if and only if there are at most maxSize producers |
| EventQueueProgress.ItemEnters | src/util/EventQueue.hpp:14-30 | with at most as many producers as places, after any run an item whose push is under way can get in next, by the program's own steps without a spurious wake-up |
| EventQueueProgress.ItemLeaves | src/util/EventQueue.hpp:14-30 | and the oldest item can come out |
| UpdateSignal.AlwaysPromised | src/tui/TuiApp.cpp:29-36 | no lost wake-up: a raised flag or a non-empty queue always has an event or a thread on the way; drained entries are a prefix of the pushes with parallel labels |
| UpdateSignal.AllShownAtRest | src/tui/TuiApp.cpp:83-88 | when nothing is under way every pushed transaction is shown, in order |
| UpdateSignal.PushedIsShown | src/tui/TuiApp.cpp:29-36 | after any run everything pushed comes to be shown by the steps already under way, with no further key, push or request |
| UpdateSignal.TsQueue.TryPopAll | src/util/TsQueue.hpp:18-27 | drains everything in order |
| UpdateSignal.HistoryTab.OnCustom | src/tui/HistoryTab.cpp:135-142 | drained transactions go to the end of the entries and of the labels |
| UpdateSignal.TuiApp.Trigger | src/tui/TuiApp.cpp:29-36 | posts an event exactly when it raises the flag |
| UpdateSignal.TuiApp.OnCustomEvent | src/tui/TuiApp.cpp:83-88 | lowers the flag, then drains |
| HttpParsers.HeadersOfCuts | src/http/HttpParser.cpp:127-159 | the header list depends on names and values only, however they are cut into callbacks |
| HttpParsers.ChunkingDoesNotMatter | src/http/HttpParser.cpp:127-159 | two cuttings of the same headers give the same list |
| HttpParsers.HeadersRecovered | src/http/HttpParser.cpp:127-134 | it is the list that was sent if and only if every name is non-empty |
| HttpParsers.BodyIs | src/http/HttpParser.cpp:161-173 | the stored body is the first 2^20 bytes, with the marker exactly when a chunk straddles the limit |
| HttpParsers.StoredBody | src/http/HttpParser.cpp:161-173 | up to 1048576 bytes are stored whole; of more, that many, followed by "[--- Body truncated for UI ---]" after two line feeds when a chunk crosses the limit, and by nothing when one ends at it |
| HttpParsers.JoinConcat | src/http/HttpParser.cpp:161-173 | the pieces are joined end to end |
| HttpParsers.UnmarkedWhenAligned | src/http/HttpParser.cpp:164-170 | a longer body is unmarked if and only if some chunks end at the limit |
| HttpParsers.AlignedBodyUnmarked | src/http/HttpParser.cpp:164-170 | a chunk of exactly the limit and any more: cut without a marker |
| HttpParsers.NamelessHeaderMerges | src/http/HttpParser.cpp:127-134 | a nameless header vanishes and its value is put in front of the next one's |
| HttpParserObjects.FedInParts | src/http/HttpParser.cpp:207-214 | spreading callbacks over several feeds changes nothing |
| HttpParserObjects.MessageAssembled | src/http/HttpParser.cpp:41-182 | a whole message cut in any way is assembled to its start, headers, body and status |
| HttpParserObjects.ResponseParser.Feed | src/http/HttpParser.cpp:207-214 | applies the callbacks in order unless a message is waiting |
| HttpParserObjects.ResponseParser.Take | src/http/HttpParser.cpp:225-232 | hands the complete message out once and starts afresh |
| HttpParserObjects.ResponseParser.OnBodyPiece | src/http/HttpParser.cpp:161-173 | refines the truncating append |
| HttpParserObjects.ResponseParser.OnHeaderFieldPiece | src/http/HttpParser.cpp:144-152 | commits the previous header on the first piece of a name |
| WorldSteps.PutKeeps | src/proxy/MitmSession.cpp:37-475 | a handler that neither accepts a request nor runs a decision keeps the whole system's invariant, closing included |
| WorldSteps.PlainCloseKeeps | src/proxy/Session.cpp:39-44 | a plain session's close touches no HTTPS session's item and keeps the invariant |
| WorldSteps.PlainArriveKeeps | src/proxy/Session.cpp:110-238 | a plain session's request, intercepted or not, keeps the invariant |
| WorldSteps.PlainRunKeeps | src/proxy/Session.cpp:225-236 | a plain session's continuation moves its own item on and keeps the invariant |
| MitmSteps.ClientReadStep | src/proxy/MitmSession.cpp:255-323 | a read without a complete request keeps the turn or closes |
| MitmSteps.ClientHandshakeStep | src/proxy/MitmSession.cpp:211-223 | the client's handshake keeps the session invariant and joins at most once |
| MitmSteps.UpstreamHandshakeStep | src/proxy/MitmSession.cpp:225-237 | the server's handshake keeps the session invariant and joins at most once |
| MitmSteps.ResolvedStep | src/proxy/MitmSession.cpp:84-93 | resolving, or failing with a report and a raw response, keeps the session invariant |
| MitmSteps.ConnectedStep | src/proxy/MitmSession.cpp:96-112 | connecting, or failing likewise, keeps the session invariant |
| MitmSteps.EstablishedStep | src/proxy/MitmSession.cpp:114-209 | starting the handshakes keeps the session invariant |
| MitmSteps.TimeoutStep | src/proxy/MitmSession.cpp:73-78 | a timeout at any point keeps the session invariant |
| MitmSessions.MitmSession.WriteUpstream | src/proxy/MitmSession.cpp:325-332 | appends, and starts the write only if the queue was empty |
| MitmSessions.MitmSession.DoUpstreamWrite | src/proxy/MitmSession.cpp:334-343 | starts a write of the queue's front |
| MitmSessions.MitmSession.WriteClient | src/proxy/MitmSession.cpp:438-445 | appends, and starts the write only if the queue was empty |
| MitmSessions.MitmSession.DoClientWrite | src/proxy/MitmSession.cpp:447-456 | starts a write of the queue's front |
| MitmSessions.MitmSession.AcceptRequest | src/proxy/MitmSession.cpp:272-311 | gives the request the next id and object, and holds it or sends it |
| MitmSessions.MitmSession.UpstreamEnded | src/proxy/MitmSession.cpp:371-388 | at the end of the stream an unreported completed response is reported, then the session closes |
| MitmSessions.MitmSession.RequestAnswered | src/proxy/MitmSession.cpp:399-429 | reports, then resets for the next request or closes once everything is written |
| MitmSessions.MitmSession.Relay | src/proxy/MitmSession.cpp:391-395 | queues the chunk for the client and keeps it |
| MitmSessions.MitmSession.NextRequest | src/proxy/MitmSession.cpp:414-420 | forgets the transaction and what was accumulated, and reads the next request |
| MitmSessions.MitmSession.CloseWhenWritten | src/proxy/MitmSession.cpp:421-426 | closes at once if nothing is queued, else after the last write |
| MitmSessions.MitmSession.HandleRawErrorWritten | src/proxy/MitmSession.cpp:150-154 | closes after the raw error response |
| MitmSessions.MitmSession.HandleTimeout | src/proxy/MitmSession.cpp:73-78 | closes |
| InterceptManagers.AllDelivered | src/proxy/InterceptManager.cpp:109-113 | when a thread has called back on all it took, exactly what was pending is decided |
| InterceptManagers.InterceptManager.SetNotifyCallback | src/proxy/InterceptManager.cpp:149-152 | later changes notify exactly if a callback is set |
| TextEditors.TextEditor.OnTab | src/tui/TextEditor.cpp:366-371 | inserts four spaces at the flat offset |
| TextEditors.TextEditor.OnCharacter | src/tui/TextEditor.cpp:373-379 | inserts the typed or pasted text at the flat offset |
| TextEditors.TextEditor.OnHome | src/tui/TextEditor.cpp:299-303 | goes back to just after the last line feed |
| TextEditors.TextEditor.OnEnd | src/tui/TextEditor.cpp:304-308 | goes on to just before the next line feed |
| TextEditors.TextEditor.OnPageUp | src/tui/TextEditor.cpp:309-315 | the same column ten lines up in the flat text, or of the first line, or that line's end |
| TextEditors.TextEditor.OnPageDown | src/tui/TextEditor.cpp:316-322 | the same column ten lines down in the flat text, or of the last line, or that line's end |
| EditorSteps.RowsUp | src/tui/TextEditor.cpp:310 | going n rows up is going back n line starts in the flat text |
| EditorSteps.RowsDown | src/tui/TextEditor.cpp:317 | going n rows down is going on n line starts in the flat text |
| TextEditors.TextEditor.EnsureCursorVisible | src/tui/TextEditor.cpp:136-145 | scrolls so that the cursor's row is shown |
| TextEditors.TextEditor.InsertChar | src/tui/TextEditor.cpp:149-159 | inserts one character of the string |
| EditorSteps.InsertInLine | src/tui/TextEditor.cpp:157-158 | inserting within a line is inserting at the flat offset |
| EditorSteps.EraseBefore | src/tui/TextEditor.cpp:339-341 | erasing within a line is erasing before the flat offset |
| EditorSteps.EraseAfter | src/tui/TextEditor.cpp:355-356 | erasing within a line is erasing at the flat offset |
| EditorSteps.MoveUp | src/tui/TextEditor.cpp:260-263 | the row above with the column clipped is the flat move up |
| EditorSteps.MoveDown | src/tui/TextEditor.cpp:269-272 | the row below with the column clipped is the flat move down |
| HttpRequests.NormalizeCrlf | src/http/HttpRequest.cpp:34-44 | the loop computes the lines joined with CRLF |
| HttpRequests.HeaderFrom | src/http/HttpRequest.cpp:77-90 | no header exactly when there is no colon; else the line is name, colon, blanks, value, where the name has no colon and the value starts with no blank, which determines both |
| HttpRequests.HeaderLineUnique | src/http/HttpRequest.cpp:78-89 | a line has at most one header in that sense |
| Text.CrlfFormIdempotent | src/http/HttpRequest.cpp:34-44 | forcing CRLF twice is forcing it once |
| Repeater.InsertionIsALine | src/tui/RepeaterManager.cpp:177-180 | inserting after the first CRLF adds one line after the start line and moves the blank line by one |
| Repeater.NamesPresent | src/tui/RepeaterManager.cpp:175-189 | both header names occur in the result, the first not torn by the second insertion |
| CertCaches.CertCache.FastLookup | src/proxy/CertCache.cpp:73-80 | answers a hit without changing anything |
| CertCaches.CertCache.MoveToFront | src/proxy/CertCache.cpp:88-90 | relinks the host at the front and stores the new iterator |
| CertCaches.CertCache.EvictOldest | src/proxy/CertCache.cpp:104-109 | drops the last node and its host's item when the cache is full |
| CertCaches.CertCache.PushFront | src/proxy/CertCache.cpp:111-119 | links the new host at the front with its iterator |
| EventQueues.EventQueue.Empty | src/util/EventQueue.hpp:32-35 | true exactly when everything pushed has been popped |
| HttpParserObjects.ResponseParser.OnHeaderValuePiece | src/http/HttpParser.cpp:154-159 | extends the value being assembled |
| HttpParserObjects.ResponseParser.OnComplete | src/http/HttpParser.cpp:175-182 | commits the last header and marks the message complete |

## Left out

- Sockets, TLS, DNS, certificate minting and CA files: foreign calls; their completions and results are parameters of the handlers.
- llhttp: only the source of callbacks and of the parse result of a read; end-of-stream completeness of a response is therefore not claimed, only that it is reported at most once.
- src/proxy/Session.cpp: of plain sessions only the ids they draw, the items they queue and the removal at their close are modelled (`PlainRequest`, `PlainClose`); their relaying, the blind tunnel and the 504 path are not, and an HTTPS session that a CONNECT is still to start is one whose host is still being resolved.
- Timers: expiry is a step that may close a session at any time.
- The intercept flag as the handler reads it is a free value of the event, so the gap between reading it and queueing is covered; that the queue is empty whenever intercept is off is not claimed.
- Overwriting a request object is one atomic step; the data race between the editor and the continuation is not modelled.
- Ids and positions are unbounded integers; the 32-bit width of the id counter is not modelled. The Base64 accumulator's width is.
- Text is a sequence of characters, one per byte.
- The Repeater's scheme and port stripping (src/tui/RepeaterManager.cpp:120-148) and its network exchange; the host is taken as a line without CR or LF.
- The editor's status text, `Clear` and rendering; what is copied is an out-parameter, the clipboard itself is not modelled.
- The request parser as an object: it differs from the response parser only by URL and method instead of status and by a body without limit, which `MessageAssembled` covers as values.
- EventQueues.EventQueue.TryPush: the sleep itself is a step of the protocol, not of the method, because a method cannot block here.
- EventQueues.EventQueue.TryPop: the same.
- MitmSessions.MitmSession.SendErrorResponse: the bytes of the raw error response are not modelled, because their buffer is a local string that does not outlive the call.
- WorldSteps.PlainRunKeeps: says nothing of the plain session itself, whose state is not modelled.
- UpdateSignal.TuiApp.Trigger: the compare-exchange and the post run without a break; in the protocol they are two steps.
- FTXUI layout, colours, logger, command line, stores, hex and URL codecs: only easy members.
