/** The bounded queue with one condition variable shared by producers and the consumer
    (src/util/EventQueue.hpp), as a protocol of atomic steps.

A wait is left only by trying again under the lock, after a notification or without
one; notify_one comes after the unlock, as a step of its own, and wakes any one thread
that sleeps. */
module EventQueues {
  import opened Text

  datatype Producer<T> = Idle | Trying(item: T) | Sleeping(item: T) | Notifying
  datatype Consumer = Resting | Polling | Dozing | Signalling

  datatype State<T> = State(q: seq<T>, consumer: Consumer, producers: seq<Producer<T>>, pushed: seq<T>, popped: seq<T>)

  datatype Sleeper = TheConsumer | AProducer(i: nat)

  datatype Event<T> =
    | Push(i: nat, item: T)              // producer i calls push
    | TryPush(i: nat)                    // takes the lock and checks for room
    | NotifyAfterPush(i: nat, who: Sleeper)
    | WakeProducer(i: nat)               // spuriously
    | Pop                                // the consumer calls pop
    | TryPop
    | NotifyAfterPop(who: Sleeper)
    | WakeConsumer

  function Initial<T>(n: nat): State<T> {
    State([], Resting, seq(n, _ => Idle), [], [])
  }

  predicate Asleep<T>(s: State<T>, who: Sleeper) {
    match who
    case TheConsumer => s.consumer.Dozing?
    case AProducer(i) => i < |s.producers| && s.producers[i].Sleeping?
  }

  predicate NobodyAsleep<T>(s: State<T>) {
    !s.consumer.Dozing? && forall i | 0 <= i < |s.producers| :: !s.producers[i].Sleeping?
  }

  function Woken<T>(s: State<T>, who: Sleeper): State<T> {
    if !Asleep(s, who) then s
    else match who
         case TheConsumer => s.(consumer := Polling)
         case AProducer(i) => s.(producers := s.producers[i := Trying(s.producers[i].item)])
  }

  /** notify_one may wake this thread: it sleeps, or nobody does. */
  predicate CanNotify<T>(s: State<T>, who: Sleeper) {
    Asleep(s, who) || NobodyAsleep(s)
  }

  /** The critical section of push: the item goes in, or the thread to sleep. */
  function PushTried<T>(s: State<T>, max: nat, i: nat): State<T>
    requires i < |s.producers| && s.producers[i].Trying?
  {
    var x := s.producers[i].item;
    if |s.q| < max
    then s.(q := s.q + [x], producers := s.producers[i := Notifying], pushed := s.pushed + [x])
    else s.(producers := s.producers[i := Sleeping(x)])
  }

  function PopTried<T>(s: State<T>): State<T> {
    if s.q != []
    then s.(q := s.q[1..], consumer := Signalling, popped := s.popped + [s.q[0]])
    else s.(consumer := Dozing)
  }

  /** A step that is not possible changes nothing. */
  function Step<T>(max: nat, s: State<T>, e: Event<T>): State<T> {
    match e
    case Push(i, x) =>
      if i < |s.producers| && s.producers[i].Idle? then s.(producers := s.producers[i := Trying(x)]) else s
    case TryPush(i) => if i < |s.producers| && s.producers[i].Trying? then PushTried(s, max, i) else s
    case NotifyAfterPush(i, who) =>
      if i < |s.producers| && s.producers[i].Notifying? && CanNotify(s, who)
      then Woken(s.(producers := s.producers[i := Idle]), who)
      else s
    case WakeProducer(i) => Woken(s, AProducer(i))
    case Pop => if s.consumer.Resting? then s.(consumer := Polling) else s
    case TryPop => if s.consumer.Polling? then PopTried(s) else s
    case NotifyAfterPop(who) =>
      if s.consumer.Signalling? && CanNotify(s, who) then Woken(s.(consumer := Resting), who) else s
    case WakeConsumer => Woken(s, TheConsumer)
  }

  function Exec<T>(max: nat, n: nat, events: seq<Event<T>>): State<T> {
    if events == [] then Initial(n)
    else Step(max, Exec(max, n, events[..|events| - 1]), events[|events| - 1])
  }

  // -------------------------------------------------------------------- order and size

  /** Items leave in the order in which they were pushed, and the bound is kept. */
  ghost predicate Ordered<T>(s: State<T>, max: nat) {
    s.pushed == s.popped + s.q && |s.q| <= max
  }

  lemma StepOrdered<T>(max: nat, s: State<T>, e: Event<T>)
    requires Ordered(s, max)
    ensures Ordered(Step(max, s, e), max)
  {
    match e
    case TryPush(i) =>
      if i < |s.producers| && s.producers[i].Trying? {
        assert s.popped + (s.q + [s.producers[i].item]) == (s.popped + s.q) + [s.producers[i].item];
      }
    case TryPop =>
      if s.q != [] {
        assert (s.popped + [s.q[0]]) + s.q[1..] == s.popped + s.q;
      }
    case Push(_, _) =>
    case NotifyAfterPush(_, _) =>
    case WakeProducer(_) =>
    case Pop =>
    case NotifyAfterPop(_) =>
    case WakeConsumer =>
  }

  lemma {:induction false} AlwaysOrdered<T>(max: nat, n: nat, events: seq<Event<T>>)
    ensures Ordered(Exec(max, n, events), max)
  {
    if events == [] {
    } else {
      hide Step;
      AlwaysOrdered(max, n, events[..|events| - 1]);
      StepOrdered(max, Exec(max, n, events[..|events| - 1]), events[|events| - 1]);
    }
  }

  // --------------------------------------------------------------- counting producers

  function Sleepers<T>(ps: seq<Producer<T>>): nat {
    if ps == [] then 0 else Sleepers(ps[..|ps| - 1]) + (if ps[|ps| - 1].Sleeping? then 1 else 0)
  }

  function Notifiers<T>(ps: seq<Producer<T>>): nat {
    if ps == [] then 0 else Notifiers(ps[..|ps| - 1]) + (if ps[|ps| - 1].Notifying? then 1 else 0)
  }

  lemma {:induction false} CountsAfter<T>(ps: seq<Producer<T>>, i: nat, p: Producer<T>)
    requires i < |ps|
    ensures Sleepers(ps[i := p]) == Sleepers(ps) - (if ps[i].Sleeping? then 1 else 0) + (if p.Sleeping? then 1 else 0)
    ensures Notifiers(ps[i := p]) ==
              Notifiers(ps) - (if ps[i].Notifying? then 1 else 0) + (if p.Notifying? then 1 else 0)
  {
    var n := |ps| - 1;
    if i == n {
      assert ps[i := p][..n] == ps[..n];
    } else {
      CountsAfter(ps[..n], i, p);
      assert ps[i := p][..n] == ps[..n][i := p];
    }
  }

  lemma {:induction false} CountsBound<T>(ps: seq<Producer<T>>, i: nat)
    requires i < |ps| && !ps[i].Notifying? && !ps[i].Sleeping?
    ensures Sleepers(ps) + Notifiers(ps) < |ps|
  {
    var n := |ps| - 1;
    if i == n { CountsAtMost(ps[..n]); } else { CountsBound(ps[..n], i); }
  }

  lemma {:induction false} CountsAtMost<T>(ps: seq<Producer<T>>)
    ensures Sleepers(ps) + Notifiers(ps) <= |ps|
  {
    if ps == [] {
    } else {
      CountsAtMost(ps[..|ps| - 1]);
    }
  }

  lemma {:induction false} CountsZero<T>(ps: seq<Producer<T>>)
    ensures Sleepers(ps) == 0 <==> forall i | 0 <= i < |ps| :: !ps[i].Sleeping?
    ensures Notifiers(ps) == 0 <==> forall i | 0 <= i < |ps| :: !ps[i].Notifying?
  {
    if ps == [] {
    } else {
      var n := |ps| - 1;
      CountsZero(ps[..n]);
      assert ps == ps[..n] + [ps[n]];
    }
  }

  // ------------------------------------------------------------ nobody is left waiting

  /** The consumer dozes only while no producer sleeps and every item in the queue has
      its notification still to come. */
  ghost predicate Attended<T>(s: State<T>) {
    && Sleepers(s.producers) <= |s.q| + (if s.consumer.Signalling? then 1 else 0)
    && (s.consumer.Dozing? ==> Sleepers(s.producers) == 0 && |s.q| <= Notifiers(s.producers))
  }

  lemma NotifyKeeps<T>(s: State<T>, who: Sleeper, i: nat)
    requires Attended(s) && i < |s.producers| && s.producers[i].Notifying? && CanNotify(s, who)
    ensures Attended(Woken(s.(producers := s.producers[i := Idle]), who))
  {
    var t := s.(producers := s.producers[i := Idle]);
    CountsAfter(s.producers, i, Idle);
    CountsZero(s.producers);
    if who.AProducer? && Asleep(t, who) {
      CountsAfter(t.producers, who.i, Trying(t.producers[who.i].item));
    }
  }

  lemma SignalKeeps<T>(s: State<T>, who: Sleeper)
    requires Attended(s) && s.consumer.Signalling? && CanNotify(s, who)
    ensures Attended(Woken(s.(consumer := Resting), who))
  {
    CountsZero(s.producers);
    if who.AProducer? && Asleep(s, who) {
      CountsAfter(s.producers, who.i, Trying(s.producers[who.i].item));
    }
  }

  lemma StepAttended<T>(max: nat, s: State<T>, e: Event<T>)
    requires Attended(s) && |s.producers| <= max
    ensures Attended(Step(max, s, e)) && |Step(max, s, e).producers| == |s.producers|
  {
    match e
    case Push(i, x) => if i < |s.producers| { CountsAfter(s.producers, i, Trying(x)); }
    case TryPush(i) =>
      if i < |s.producers| && s.producers[i].Trying? {
        CountsBound(s.producers, i);
        CountsAfter(s.producers, i, Notifying);
        CountsAfter(s.producers, i, Sleeping(s.producers[i].item));
      }
    case NotifyAfterPush(i, who) =>
      if i < |s.producers| && s.producers[i].Notifying? && CanNotify(s, who) { NotifyKeeps(s, who, i); }
    case WakeProducer(i) =>
      if i < |s.producers| && s.producers[i].Sleeping? { CountsAfter(s.producers, i, Trying(s.producers[i].item)); }
    case Pop =>
    case TryPop =>
    case NotifyAfterPop(who) => if s.consumer.Signalling? && CanNotify(s, who) { SignalKeeps(s, who); }
    case WakeConsumer =>
  }

  lemma {:induction false} AlwaysAttended<T>(max: nat, n: nat, events: seq<Event<T>>)
    requires n <= max
    ensures Attended(Exec(max, n, events)) && |Exec(max, n, events).producers| == n
  {
    if events == [] {
      CountsZero(Initial<T>(n).producers);
    } else {
      hide Step;
      AlwaysAttended(max, n, events[..|events| - 1]);
      StepAttended(max, Exec(max, n, events[..|events| - 1]), events[|events| - 1]);
    }
  }

  predicate EveryoneAsleep<T>(s: State<T>) {
    s.consumer.Dozing? && forall i | 0 <= i < |s.producers| :: s.producers[i].Sleeping?
  }

  /** The consumer sleeps on an item and no producer is about to notify. */
  predicate Forgotten<T>(s: State<T>) {
    s.consumer.Dozing? && s.q != [] && forall i | 0 <= i < |s.producers| :: !s.producers[i].Notifying?
  }

  /** With at most as many producers as places neither happens, in any run. */
  lemma {:induction false} NeverStuck<T>(max: nat, n: nat, events: seq<Event<T>>)
    requires 0 < n <= max
    ensures !EveryoneAsleep(Exec(max, n, events)) && !Forgotten(Exec(max, n, events))
  {
    AlwaysAttended(max, n, events);
    CountsZero(Exec(max, n, events).producers);
    hide Exec;
    assert |Exec(max, n, events).producers| > 0;
  }

  /** And the notification that comes reaches the consumer: it is the only sleeper. */
  lemma NotificationArrives<T>(max: nat, n: nat, events: seq<Event<T>>, i: nat, who: Sleeper)
    requires n <= max && i < n && |Exec(max, n, events).producers| == n
    requires var s := Exec(max, n, events); s.consumer.Dozing? && s.producers[i].Notifying? && CanNotify(s, who)
    ensures Step(max, Exec(max, n, events), NotifyAfterPush(i, who)).consumer == Polling
  {
    AlwaysAttended(max, n, events);
    CountsZero(Exec(max, n, events).producers);
    hide Exec;
  }

  /** The queue as an object: its critical sections, as the protocol's steps take them.
      What the threads are doing is ghost. */
  class EventQueue<T> {
    const maxSize: nat
    var q: seq<T>
    ghost var state: State<T>

    ghost predicate Valid()
      reads this
    {
      state.q == q && Ordered(state, maxSize)
    }

    constructor (maxSize: nat, ghost producers: nat)
      ensures Valid() && this.maxSize == maxSize && state == Initial(producers)
    {
      this.maxSize, q, state := maxSize, [], Initial(producers);
    }

    /** From the lock in push until it is released: the item is in, or the thread waits. */
    method TryPush(item: T, ghost i: nat) returns (done: bool)
      requires Valid() && i < |state.producers| && state.producers[i] == Trying(item)
      modifies this
      ensures Valid() && state == PushTried(old(state), maxSize, i)
      ensures done <==> |old(q)| < maxSize
      ensures q == if done then old(q) + [item] else old(q)
      ensures state.producers[i] == if done then Notifying else Sleeping(item)
    {
      StepOrdered(maxSize, state, Event.TryPush(i));
      state := PushTried(state, maxSize, i);
      if |q| >= maxSize { return false; }
      q := q + [item];
      done := true;
    }

    /** From the lock in pop until it is released: the oldest item, or the thread waits. */
    method TryPop() returns (r: Option<T>)
      requires Valid() && state.consumer.Polling?
      modifies this
      ensures Valid() && state == PopTried(old(state))
      ensures if old(q) == [] then r == None && q == [] else r == Some(old(q)[0]) && q == old(q)[1..]
      ensures if r.Some? then state.consumer.Signalling? && state.popped == old(state).popped + [r.value]
              else state.consumer.Dozing?
    {
      StepOrdered(maxSize, state, Event.TryPop);
      state := PopTried(state);
      if q == [] { return None; }
      r := Some(q[0]);
      q := q[1..];
    }

    method Empty() returns (r: bool)
      requires Valid()
      ensures r <==> state.pushed == state.popped
    {
      r := q == [];
    }
  }
}
