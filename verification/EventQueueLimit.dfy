/** With more producers than places in the queue there is a run after which everyone
    sleeps: the consumer dozes, the queue fills up, every notification goes to a
    producer that finds no room, and then every producer goes to sleep. */
module EventQueueLimit {
  import opened EventQueues

  lemma Then<T>(max: nat, n: nat, events: seq<Event<T>>, e: Event<T>)
    ensures Exec(max, n, events + [e]) == Step(max, Exec(max, n, events), e)
  {
    assert (events + [e])[..|events|] == events;
  }

  function Copies<T>(k: nat, x: T): (q: seq<T>)
    ensures |q| == k
  {
    seq(k, _ => x)
  }

  /** The first k producers have pushed and are about to notify. */
  function Filled<T>(n: nat, x: T, k: nat): State<T> {
    State(Copies(k, x), Dozing, seq(n, j requires 0 <= j < n => if j < k then Notifying else Idle), Copies(k, x), [])
  }

  /** Producer `max` sleeps; the first k have notified it, in vain. */
  function Wasted<T>(max: nat, n: nat, x: T, k: nat): State<T> {
    State(Copies(max, x), Dozing,
          seq(n, j requires 0 <= j < n => if j == max then Sleeping(x) else if k <= j < max then Notifying else Idle),
          Copies(max, x), [])
  }

  /** So do the first k producers. */
  function Stalled<T>(max: nat, n: nat, x: T, k: nat): State<T> {
    State(Copies(max, x), Dozing,
          seq(n, j requires 0 <= j < n => if j == max || j < k then Sleeping(x) else Idle),
          Copies(max, x), [])
  }

  lemma FillOne<T>(max: nat, n: nat, x: T, k: nat)
    requires k < max < n
    ensures Step(max, Step(max, Filled(n, x, k), Push(k, x)), TryPush(k)) == Filled(n, x, k + 1)
  {
    assert Copies(k, x) + [x] == Copies(k + 1, x);
    assert Filled(n, x, k).producers[k := Trying(x)][k := Notifying] == Filled(n, x, k + 1).producers;
  }

  lemma Overfill<T>(max: nat, n: nat, x: T)
    requires max < n
    ensures Step(max, Step(max, Filled(n, x, max), Push(max, x)), TryPush(max)) == Wasted(max, n, x, 0)
  {
    assert Filled(n, x, max).producers[max := Trying(x)][max := Sleeping(x)] == Wasted(max, n, x, 0).producers;
  }

  lemma WasteOne<T>(max: nat, n: nat, x: T, k: nat)
    requires k < max < n
    ensures Step(max, Step(max, Wasted(max, n, x, k), NotifyAfterPush(k, AProducer(max))), TryPush(max)) ==
      Wasted(max, n, x, k + 1)
  {
    assert Wasted(max, n, x, k).producers[k := Idle][max := Trying(x)][max := Sleeping(x)] ==
      Wasted(max, n, x, k + 1).producers;
  }

  lemma StallOne<T>(max: nat, n: nat, x: T, k: nat)
    requires k < n && k != max < n
    ensures Step(max, Step(max, Stalled(max, n, x, k), Push(k, x)), TryPush(k)) == Stalled(max, n, x, k + 1)
  {
    assert Stalled(max, n, x, k).producers[k := Trying(x)][k := Sleeping(x)] == Stalled(max, n, x, k + 1).producers;
  }

  lemma {:induction false} Fill<T>(max: nat, n: nat, x: T, k: nat) returns (events: seq<Event<T>>)
    requires k <= max < n
    ensures Exec(max, n, events) == Filled(n, x, k)
  {
    if k == 0 {
      var none: seq<Event<T>> := [];
      events := none + [Pop] + [TryPop];
      Then(max, n, none, Pop);
      Then(max, n, none + [Pop], TryPop);
      assert Initial<T>(n).producers == Filled(n, x, 0).producers && Copies(0, x) == [];
    } else {
      var es := Fill(max, n, x, k - 1);
      events := es + [Push(k - 1, x)] + [TryPush(k - 1)];
      Then(max, n, es, Push(k - 1, x));
      Then(max, n, es + [Push(k - 1, x)], TryPush(k - 1));
      FillOne(max, n, x, k - 1);
    }
  }

  lemma {:induction false} Waste<T>(max: nat, n: nat, x: T, k: nat) returns (events: seq<Event<T>>)
    requires k <= max < n
    ensures Exec(max, n, events) == Wasted(max, n, x, k)
  {
    if k == 0 {
      var es := Fill(max, n, x, max);
      events := es + [Push(max, x)] + [TryPush(max)];
      Then(max, n, es, Push(max, x));
      Then(max, n, es + [Push(max, x)], TryPush(max));
      Overfill(max, n, x);
    } else {
      var es := Waste(max, n, x, k - 1);
      var e := NotifyAfterPush(k - 1, AProducer(max));
      events := es + [e] + [TryPush(max)];
      Then(max, n, es, e);
      Then(max, n, es + [e], TryPush(max));
      WasteOne(max, n, x, k - 1);
    }
  }

  lemma {:induction false} Stall<T>(max: nat, n: nat, x: T, k: nat) returns (events: seq<Event<T>>)
    requires k <= n && max < n
    ensures Exec(max, n, events) == Stalled(max, n, x, k)
  {
    if k == 0 {
      events := Waste(max, n, x, max);
      assert Wasted(max, n, x, max).producers == Stalled(max, n, x, 0).producers;
    } else if k - 1 == max {
      events := Stall(max, n, x, k - 1);
      assert Stalled(max, n, x, k - 1).producers == Stalled(max, n, x, k).producers;
    } else {
      var es := Stall(max, n, x, k - 1);
      events := es + [Push(k - 1, x)] + [TryPush(k - 1)];
      Then(max, n, es, Push(k - 1, x));
      Then(max, n, es + [Push(k - 1, x)], TryPush(k - 1));
      StallOne(max, n, x, k - 1);
    }
  }

  /** No run of n producers leaves everyone asleep, or the consumer asleep on an item
      that nobody will announce. */
  ghost predicate Safe<T(!new)>(max: nat, n: nat) {
    forall events: seq<Event<T>> :: !EveryoneAsleep(Exec(max, n, events)) && !Forgotten(Exec(max, n, events))
  }

  /** The queue is safe for exactly as many producers as it has places. */
  lemma SafeExactly<T(!new)>(max: nat, n: nat, x: T)
    requires n > 0
    ensures Safe<T>(max, n) <==> n <= max
  {
    if n <= max {
      forall events: seq<Event<T>> ensures !EveryoneAsleep(Exec(max, n, events)) && !Forgotten(Exec(max, n, events)) {
        NeverStuck(max, n, events);
      }
    } else {
      var events := Stall(max, n, x, n);
      assert EveryoneAsleep(Stalled(max, n, x, n));
    }
  }
}
