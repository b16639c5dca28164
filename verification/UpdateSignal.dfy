/** How a finished transaction reaches the history tab: it is pushed to a queue, and a
    flag decides who posts an update event to the user interface
    (src/app/App.cpp, src/tui/TuiApp.cpp, src/util/TsQueue.hpp, src/tui/HistoryTab.cpp). */
module UpdateSignal {

  datatype Label<T> = LabelOf(tx: T)

  /** The queue between the network thread and the user interface. */
  class TsQueue<T> {
    var q: seq<T>

    constructor ()
      ensures q == []
    {
      q := [];
    }

    method Push(item: T)
      modifies this
      ensures q == old(q) + [item]
    {
      q := q + [item];
    }

    /** Everything that is in the queue, in order; nothing stays. */
    method TryPopAll() returns (out: seq<T>)
      modifies this
      ensures out == old(q) && q == []
    {
      out := [];
      while q != []
        invariant out + q == old(q)
        decreases |q|
      {
        out := out + [q[0]];
        q := q[1..];
      }
    }
  }

  function Labels<T>(txs: seq<T>): (ls: seq<Label<T>>)
    ensures |ls| == |txs|
  {
    seq(|txs|, i requires 0 <= i < |txs| => LabelOf(txs[i]))
  }

  class HistoryTab<T> {
    var entries: seq<T>
    var entryLabels: seq<Label<T>>

    constructor ()
      ensures entries == [] && entryLabels == []
    {
      entries, entryLabels := [], [];
    }

    /** The Custom event: what was drained goes to the end of both lists. */
    method OnCustom(queue: TsQueue<T>)
      requires entryLabels == Labels(entries)
      modifies this, queue
      ensures entries == old(entries) + old(queue.q) && queue.q == []
      ensures entryLabels == Labels(entries)
    {
      var newItems := queue.TryPopAll();
      for i := 0 to |newItems|
        invariant entries == old(entries) + newItems[..i] && entryLabels == Labels(entries)
        invariant queue.q == []
      {
        entryLabels := entryLabels + [LabelOf(newItems[i])];
        entries := entries + [newItems[i]];
      }
      assert newItems[..|newItems|] == newItems;
    }
  }

  /** The flag, and the update events posted to the screen and not yet handled. */
  class TuiApp<T> {
    var updatePending: bool
    var customEvents: nat

    constructor ()
      ensures !updatePending && customEvents == 0
    {
      updatePending, customEvents := false, 0;
    }

    /** Only the caller that raises the flag posts. */
    method Trigger()
      modifies this
      ensures updatePending && customEvents == old(customEvents) + (if old(updatePending) then 0 else 1)
    {
      var won := !updatePending;
      if won {
        updatePending := true;
        customEvents := customEvents + 1;
      }
    }

    /** The flag is lowered before the queue is drained. */
    method OnCustomEvent(history: HistoryTab<T>, queue: TsQueue<T>)
      requires customEvents > 0 && history.entryLabels == Labels(history.entries)
      modifies this, history, queue
      ensures !updatePending && customEvents == old(customEvents) - 1
      ensures queue.q == [] && history.entries == old(history.entries) + old(queue.q)
      ensures history.entryLabels == Labels(history.entries)
    {
      customEvents := customEvents - 1;
      updatePending := false;
      history.OnCustom(queue);
    }
  }

  // ---------------------------------------------------------------------- protocol

  /** A thread that reports: between its push, or its wish to have the screen redrawn,
      and the compare-exchange; and between winning that and posting. */
  datatype Reporter = Idle | Reported | Won

  /** The user interface: waiting for an event; holding a Custom event, flag not yet
      cleared; or about to drain the queue. */
  datatype Ui = Waiting | Clearing | Draining

  datatype State<T> = State(
    q: seq<T>, flag: bool, inFlight: nat, reporters: seq<Reporter>, ui: Ui,
    pushed: seq<T>, entries: seq<T>, labels: seq<Label<T>>)

  datatype Event<T> =
    | Push(i: nat, tx: T)        // the session's listener pushes a transaction
    | Ask(i: nat)                // the intercept queue or the Repeater asks for a redraw
    | CompareExchange(i: nat)
    | Post(i: nat)
    | TabSwitch                  // the Repeater posts a Custom event by itself
    | TakeCustom                 // the user interface takes a Custom event
    | ClearFlag
    | HistoryKey                 // F2 or 2: drains without a Custom event
    | Drain

  function Initial<T>(n: nat): State<T> {
    State([], false, 0, seq(n, _ => Idle), Waiting, [], [], [])
  }

  predicate At<T>(s: State<T>, i: nat, r: Reporter) {
    i < |s.reporters| && s.reporters[i] == r
  }

  /** A step that is not possible changes nothing. */
  function Step<T>(s: State<T>, e: Event<T>): State<T> {
    match e
    case Push(i, tx) =>
      if At(s, i, Idle)
      then s.(q := s.q + [tx], pushed := s.pushed + [tx], reporters := s.reporters[i := Reported])
      else s
    case Ask(i) => if At(s, i, Idle) then s.(reporters := s.reporters[i := Reported]) else s
    case CompareExchange(i) =>
      if At(s, i, Reported) then s.(flag := true, reporters := s.reporters[i := if s.flag then Idle else Won]) else s
    case Post(i) => if At(s, i, Won) then s.(inFlight := s.inFlight + 1, reporters := s.reporters[i := Idle]) else s
    case TabSwitch => s.(inFlight := s.inFlight + 1)
    case TakeCustom => if s.ui.Waiting? && s.inFlight > 0 then s.(ui := Clearing, inFlight := s.inFlight - 1) else s
    case ClearFlag => if s.ui.Clearing? then s.(ui := Draining, flag := false) else s
    case HistoryKey => if s.ui.Waiting? then s.(ui := Draining) else s
    case Drain =>
      if s.ui.Draining?
      then s.(ui := Waiting, q := [], entries := s.entries + s.q, labels := s.labels + Labels(s.q))
      else s
  }

  function Exec<T>(n: nat, events: seq<Event<T>>): State<T> {
    if events == [] then Initial(n)
    else Step(Exec(n, events[..|events| - 1]), events[|events| - 1])
  }

  predicate Somebody<T>(s: State<T>, r: Reporter) {
    exists i | 0 <= i < |s.reporters| :: s.reporters[i] == r
  }

  /** A Custom event exists, or its winner is about to post it, or it is being handled
      and the flag is still to be cleared. */
  predicate Coming<T>(s: State<T>) {
    s.inFlight > 0 || Somebody(s, Won) || s.ui.Clearing?
  }

  /** No lost wake-up: the flag is a promise, and a non-empty queue has somebody on the
      way to it. */
  ghost predicate Promised<T>(s: State<T>) {
    && (s.flag ==> Coming(s))
    && (s.q != [] ==> Somebody(s, Reported) || Coming(s) || s.ui.Draining?)
  }

  /** What was drained is a prefix of what was pushed, and the labels run parallel. */
  ghost predicate Shown<T>(s: State<T>) {
    s.entries + s.q == s.pushed && s.labels == Labels(s.entries)
  }

  lemma Changed<T>(s: State<T>, i: nat, r: Reporter, k: Reporter)
    requires i < |s.reporters|
    ensures k == r ==> Somebody(s.(reporters := s.reporters[i := r]), k)
    ensures s.reporters[i] != k && Somebody(s, k) ==> Somebody(s.(reporters := s.reporters[i := r]), k)
  {
    var rs := s.reporters[i := r];
    assert rs[i] == r;
    if s.reporters[i] != k && Somebody(s, k) {
      var j: nat :| j < |s.reporters| && s.reporters[j] == k;
      assert rs[j] == k;
    }
  }

  lemma StepPromised<T>(s: State<T>, e: Event<T>)
    requires Promised(s)
    ensures Promised(Step(s, e))
  {
    match e
    case Push(i, _) =>
      if At(s, i, Idle) {
        Changed(s, i, Reported, Reported);
        Changed(s, i, Reported, Won);
        hide Somebody;
        ReportersOnly(s, Step(s, e), i, Reported);
      }
    case Ask(i) =>
      if At(s, i, Idle) { Changed(s, i, Reported, Reported); Changed(s, i, Reported, Won); }
    case CompareExchange(i) =>
      if At(s, i, Reported) {
        var r := if s.flag then Idle else Won;
        Changed(s, i, r, Won);
        ReportersOnly(s, Step(s, e), i, r);
      }
    case Post(i) => if At(s, i, Won) { Changed(s, i, Idle, Reported); }
    case TabSwitch =>
    case TakeCustom => SameReporters(s, Step(s, e));
    case ClearFlag => SameReporters(s, Step(s, e));
    case HistoryKey => SameReporters(s, Step(s, e));
    case Drain => SameReporters(s, Step(s, e));
  }

  lemma SameReporters<T>(s: State<T>, t: State<T>)
    requires t.reporters == s.reporters
    ensures forall k :: Somebody(t, k) <==> Somebody(s, k)
  {
  }

  lemma ReportersOnly<T>(s: State<T>, t: State<T>, i: nat, r: Reporter)
    requires i < |s.reporters| && t.reporters == s.reporters[i := r]
    ensures forall k :: Somebody(t, k) <==> Somebody(s.(reporters := s.reporters[i := r]), k)
  {
  }

  lemma StepShown<T>(s: State<T>, e: Event<T>)
    requires Shown(s)
    ensures Shown(Step(s, e))
  {
    match e
    case Push(i, tx) => assert s.entries + (s.q + [tx]) == (s.entries + s.q) + [tx];
    case Drain => assert (s.entries + s.q) + [] == s.entries + s.q;
    case Ask(_) =>
    case CompareExchange(_) =>
    case Post(_) =>
    case TabSwitch =>
    case TakeCustom =>
    case ClearFlag =>
    case HistoryKey =>
  }

  lemma {:induction false} AlwaysPromised<T>(n: nat, events: seq<Event<T>>)
    ensures Promised(Exec(n, events)) && Shown(Exec(n, events))
  {
    if events == [] {
    } else {
      hide Step, Promised, Shown;
      AlwaysPromised(n, events[..|events| - 1]);
      StepPromised(Exec(n, events[..|events| - 1]), events[|events| - 1]);
      StepShown(Exec(n, events[..|events| - 1]), events[|events| - 1]);
    }
  }

  /** When every thread is done and the user interface waits with no event to come,
      everything that was ever pushed is shown, in order, each with its label. */
  lemma {:induction false} AllShownAtRest<T>(n: nat, events: seq<Event<T>>)
    requires var s := Exec(n, events);
             s.ui.Waiting? && s.inFlight == 0 && forall i | 0 <= i < |s.reporters| :: s.reporters[i] == Idle
    ensures var s := Exec(n, events);
            s.entries == s.pushed && s.labels == Labels(s.pushed) && !s.flag
  {
    AlwaysPromised(n, events);
    var s := Exec(n, events);
    hide Exec;
    assert s.q == [];
    assert s.entries + [] == s.entries;
  }

  // ------------------------------------------------------------------------ progress

  /** A step that is already on its way: nobody presses a key, switches a tab or reports
      anything new. */
  predicate UnderWay<T>(e: Event<T>) {
    e.CompareExchange? || e.Post? || e.TakeCustom? || e.ClearFlag? || e.Drain?
  }

  predicate AllUnderWay<T>(events: seq<Event<T>>) {
    forall i | 0 <= i < |events| :: UnderWay(events[i])
  }

  function After<T>(s: State<T>, events: seq<Event<T>>): State<T>
    decreases |events|
  {
    if events == [] then s else After(Step(s, events[0]), events[1..])
  }

  lemma {:induction false} AfterExec<T>(n: nat, events: seq<Event<T>>, more: seq<Event<T>>)
    ensures Exec(n, events + more) == After(Exec(n, events), more)
    decreases |more|
  {
    hide Step;
    if more == [] {
      assert events + more == events;
    } else {
      AfterExec(n, events + [more[0]], more[1..]);
      assert events + [more[0]] + more[1..] == events + more;
      assert (events + [more[0]])[..|events|] == events;
    }
  }

  lemma Chained<T>(s: State<T>, e: Event<T>, rest: seq<Event<T>>)
    ensures After(s, [e] + rest) == After(Step(s, e), rest)
  {
    assert ([e] + rest)[1..] == rest;
  }

  /** With an event posted, the user interface gets to the queue. */
  lemma PostedArrives<T>(s: State<T>) returns (more: seq<Event<T>>)
    requires s.inFlight > 0 || !s.ui.Waiting?
    ensures AllUnderWay(more) && After(s, more).entries == s.entries + s.q
    decreases if s.ui.Waiting? then 2 else if s.ui.Clearing? then 1 else 0
  {
    match s.ui
    case Draining =>
      more := [Drain] + [];
      Chained(s, Drain, []);
    case Clearing =>
      var rest := PostedArrives(Step(s, ClearFlag));
      more := [ClearFlag] + rest;
      Chained(s, ClearFlag, rest);
    case Waiting =>
      var rest := PostedArrives(Step(s, TakeCustom));
      more := [TakeCustom] + rest;
      Chained(s, TakeCustom, rest);
  }

  lemma WinnerArrives<T>(s: State<T>, i: nat) returns (more: seq<Event<T>>)
    requires At(s, i, Won)
    ensures AllUnderWay(more) && After(s, more).entries == s.entries + s.q
  {
    var rest := PostedArrives(Step(s, Post(i)));
    more := [Post(i)] + rest;
    Chained(s, Post(i), rest);
  }

  /** The flag may be up only when an event is coming, so a report is never swallowed. */
  lemma ReporterArrives<T>(s: State<T>, i: nat) returns (more: seq<Event<T>>)
    requires At(s, i, Reported) && !s.flag
    ensures AllUnderWay(more) && After(s, more).entries == s.entries + s.q
  {
    var rest := WinnerArrives(Step(s, CompareExchange(i)), i);
    more := [CompareExchange(i)] + rest;
    Chained(s, CompareExchange(i), rest);
  }

  lemma QueueArrives<T>(s: State<T>) returns (more: seq<Event<T>>)
    requires Promised(s) && s.q != []
    ensures AllUnderWay(more) && After(s, more).entries == s.entries + s.q
  {
    hide After, AllUnderWay;
    if s.inFlight > 0 || !s.ui.Waiting? {
      more := PostedArrives(s);
    } else if Somebody(s, Won) {
      var i: nat :| i < |s.reporters| && s.reporters[i] == Won;
      more := WinnerArrives(s, i);
    } else {
      var i: nat :| i < |s.reporters| && s.reporters[i] == Reported;
      more := ReporterArrives(s, i);
    }
  }

  /** After any run everything pushed so far comes to be shown by the steps that are under
      way: nothing more needs to be pressed, pushed or asked for. */
  lemma PushedIsShown<T>(n: nat, events: seq<Event<T>>) returns (more: seq<Event<T>>)
    ensures AllUnderWay(more) && Exec(n, events + more).entries == Exec(n, events).pushed
  {
    AlwaysPromised(n, events);
    var s := Exec(n, events);
    more := [];
    if s.q != [] {
      more := QueueArrives(s);
      AfterExec(n, events, more);
      hide Exec, After, Promised, AllUnderWay;
    } else {
      assert events + [] == events;
      assert s.entries + [] == s.entries;
      hide Exec;
    }
  }
}
