/** From wherever a run has led, the queue can be used on: with at most as many producers
    as places, an item that is in can come out and an item that waits can get in, by the
    steps of the program alone, without a spurious wake-up. */
module EventQueueProgress {
  import opened EventQueues

  /** A step the threads take of their own accord, once called. */
  predicate OwnStep<T>(e: Event<T>) {
    e.TryPush? || e.NotifyAfterPush? || e.Pop? || e.TryPop? || e.NotifyAfterPop?
  }

  function After<T>(max: nat, s: State<T>, events: seq<Event<T>>): State<T> {
    if events == [] then s else Step(max, After(max, s, events[..|events| - 1]), events[|events| - 1])
  }

  lemma {:induction false} AfterExec<T>(max: nat, n: nat, events: seq<Event<T>>, more: seq<Event<T>>)
    ensures Exec(max, n, events + more) == After(max, Exec(max, n, events), more)
  {
    hide Step;
    var k := |more| - 1;
    if more == [] {
      assert events + more == events;
    } else {
      AfterExec(max, n, events, more[..k]);
      assert (events + more)[..|events + more| - 1] == events + more[..k];
    }
  }

  lemma Later<T>(max: nat, s: State<T>, events: seq<Event<T>>, e: Event<T>)
    ensures After(max, s, events + [e]) == Step(max, After(max, s, events), e)
  {
    assert (events + [e])[..|events|] == events;
  }

  lemma One<T>(max: nat, s: State<T>, e: Event<T>)
    ensures After(max, s, [e]) == Step(max, s, e)
  {
    assert [] + [e] == [e];
    Later(max, s, [], e);
  }

  lemma SomeNotifier<T>(ps: seq<Producer<T>>) returns (i: nat)
    requires Notifiers(ps) > 0
    ensures i < |ps| && ps[i].Notifying?
  {
    CountsZero(ps);
    i :| i < |ps| && ps[i].Notifying?;
  }

  /** Whoever notify_one may wake. */
  lemma SomeTarget<T>(s: State<T>) returns (who: Sleeper)
    ensures CanNotify(s, who)
  {
    if s.consumer.Dozing? {
      who := TheConsumer;
    } else if i: nat :| i < |s.producers| && s.producers[i].Sleeping? {
      who := AProducer(i);
    } else {
      who := TheConsumer;
    }
  }

  /** Every producer that tries, or sleeps while the consumer is not about to notify, is
      left alone. */
  ghost predicate LeftAlone<T>(s: State<T>, t: State<T>) {
    |t.producers| == |s.producers| && forall i | 0 <= i < |s.producers| ::
      s.producers[i].Trying? || (s.producers[i].Sleeping? && !s.consumer.Signalling?) ==>
        t.producers[i] == s.producers[i]
  }

  predicate AllOwn<T>(events: seq<Event<T>>) {
    forall i | 0 <= i < |events| :: OwnStep(events[i])
  }

  /** The consumer comes to try, with the queue as it was. */
  lemma ConsumerTries<T>(max: nat, s: State<T>) returns (more: seq<Event<T>>)
    requires Attended(s) && s.q != []
    ensures AllOwn(more)
    ensures var t := After(max, s, more);
            t.consumer.Polling? && t.q == s.q && t.popped == s.popped && t.pushed == s.pushed && LeftAlone(s, t)
  {
    match s.consumer
    case Polling => more := [];
    case Resting =>
      more := [Pop];
      One(max, s, Pop);
    case Dozing =>
      var i := SomeNotifier(s.producers);
      more := [NotifyAfterPush(i, TheConsumer)];
      One(max, s, more[0]);
    case Signalling =>
      var who := SomeTarget(s);
      more := [NotifyAfterPop(who)];
      One(max, s, more[0]);
      Later(max, s, more, Pop);
      more := more + [Pop];
  }

  lemma Popped<T>(max: nat, s: State<T>) returns (more: seq<Event<T>>)
    requires Attended(s) && s.q != []
    ensures AllOwn(more)
    ensures var t := After(max, s, more);
            && t.consumer.Signalling? && t.popped == s.popped + [s.q[0]] && t.q == s.q[1..]
            && t.pushed == s.pushed && LeftAlone(s, t)
  {
    var tries := ConsumerTries(max, s);
    more := tries + [TryPop];
    Later(max, s, tries, TryPop);
    hide Attended, After;
  }

  /** After any run the oldest item can come out. */
  lemma ItemLeaves<T>(max: nat, n: nat, events: seq<Event<T>>) returns (more: seq<Event<T>>)
    requires n <= max && Exec(max, n, events).q != []
    ensures AllOwn(more)
    ensures Exec(max, n, events + more).popped ==
              Exec(max, n, events).popped + [Exec(max, n, events).q[0]]
  {
    AlwaysAttended(max, n, events);
    more := Popped(max, Exec(max, n, events));
    AfterExec(max, n, events, more);
    hide Exec, After, Attended, AllOwn;
  }

  /** A producer that tries gets in, the consumer making room if there is none. */
  lemma TryingEnters<T>(max: nat, s: State<T>, i: nat, x: T) returns (more: seq<Event<T>>)
    requires Attended(s) && |s.q| <= max && 0 < max && i < |s.producers| && s.producers[i] == Trying(x)
    ensures AllOwn(more) && After(max, s, more).pushed == s.pushed + [x]
    ensures i < |After(max, s, more).producers| && After(max, s, more).producers[i] == Notifying
  {
    if |s.q| < max {
      more := [TryPush(i)];
      One(max, s, TryPush(i));
    } else {
      var pops := Popped(max, s);
      more := pops + [TryPush(i)];
      Later(max, s, pops, TryPush(i));
      hide Attended, After;
    }
  }

  /** A sleeping producer is notified. */
  lemma SleepingTries<T>(max: nat, s: State<T>, i: nat, x: T) returns (more: seq<Event<T>>)
    requires Attended(s) && |s.producers| <= max && i < |s.producers| && s.producers[i] == Sleeping(x)
    ensures AllOwn(more) && After(max, s, more).pushed == s.pushed
    ensures i < |After(max, s, more).producers| && After(max, s, more).producers[i] == Trying(x)
  {
    CountsZero(s.producers);
    if s.consumer.Signalling? {
      more := [NotifyAfterPop(AProducer(i))];
      One(max, s, more[0]);
    } else {
      var pops := Popped(max, s);
      more := pops + [NotifyAfterPop(AProducer(i))];
      Later(max, s, pops, NotifyAfterPop(AProducer(i)));
      hide Attended, After;
    }
  }

  lemma TryingRuns<T>(max: nat, n: nat, events: seq<Event<T>>, i: nat, x: T) returns (more: seq<Event<T>>)
    requires n <= max && i < |Exec(max, n, events).producers| && Exec(max, n, events).producers[i] == Trying(x)
    ensures AllOwn(more)
    ensures Exec(max, n, events + more).pushed == Exec(max, n, events).pushed + [x]
  {
    AlwaysAttended(max, n, events);
    AlwaysOrdered(max, n, events);
    hide After, Attended, Exec, AllOwn;
    more := TryingEnters(max, Exec(max, n, events), i, x);
    AfterExec(max, n, events, more);
  }

  lemma SleepingRuns<T>(max: nat, n: nat, events: seq<Event<T>>, i: nat, x: T) returns (more: seq<Event<T>>)
    requires n <= max && i < |Exec(max, n, events).producers| && Exec(max, n, events).producers[i] == Sleeping(x)
    ensures AllOwn(more) && Exec(max, n, events + more).pushed == Exec(max, n, events).pushed
    ensures i < |Exec(max, n, events + more).producers| && Exec(max, n, events + more).producers[i] == Trying(x)
  {
    AlwaysAttended(max, n, events);
    hide After, Attended, Exec, AllOwn;
    more := SleepingTries(max, Exec(max, n, events), i, x);
    AfterExec(max, n, events, more);
  }

  /** After any run a producer whose push is under way can get its item in, next after
      what was pushed. */
  lemma ItemEnters<T>(max: nat, n: nat, events: seq<Event<T>>, i: nat, x: T) returns (more: seq<Event<T>>)
    requires n <= max && i < |Exec(max, n, events).producers|
    requires Exec(max, n, events).producers[i] == Trying(x) || Exec(max, n, events).producers[i] == Sleeping(x)
    ensures AllOwn(more)
    ensures Exec(max, n, events + more).pushed == Exec(max, n, events).pushed + [x]
  {
    hide Exec;
    if Exec(max, n, events).producers[i] == Trying(x) {
      more := TryingRuns(max, n, events, i, x);
    } else {
      var first := SleepingRuns(max, n, events, i, x);
      var last := TryingRuns(max, n, events + first, i, x);
      assert events + first + last == events + (first + last);
      more := first + last;
    }
  }
}
