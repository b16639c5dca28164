/** The intercept queue as the manager keeps it, a deque of items, against the tickets
    of the whole system.  An item's callback is named by its ticket.

A thread's critical section and the callbacks it then makes run here without a break;
what happens between them is a matter of World. */
module InterceptManagers {
  import opened Text
  import opened MitmSpec
  import opened World

  datatype Item = Item(id: nat, ref: nat, t: nat)

  datatype Place = InQueue | InHand(th: nat)

  predicate IsAt(st: Status, p: Place) {
    match p
    case InQueue => st.Queued?
    case InHand(th) => st.Taken? && st.th == th
  }

  /** The items in one place, oldest first. */
  function Items(ts: seq<Ticket>, p: Place): seq<Item> {
    if ts == [] then []
    else
      var n := |ts| - 1;
      Items(ts[..n], p) + (if IsAt(ts[n].status, p) then [Item(ts[n].id, ts[n].ref, n)] else [])
  }

  // ------------------------------------------------------------ the queue as tickets

  /** The pending items are a subsequence of the arrivals: each is a ticket in that
      place, in the order of arrival, and no such ticket is missing. */
  lemma {:induction false} ItemsAre(ts: seq<Ticket>, p: Place)
    ensures forall i, j | 0 <= i < j < |Items(ts, p)| :: Items(ts, p)[i].t < Items(ts, p)[j].t
    ensures forall x | x in Items(ts, p) ::
              x.t < |ts| && x == Item(ts[x.t].id, ts[x.t].ref, x.t) && IsAt(ts[x.t].status, p)
    ensures forall t: nat | t < |ts| && IsAt(ts[t].status, p) :: Item(ts[t].id, ts[t].ref, t) in Items(ts, p)
  {
    if ts == [] {
    } else {
      var n := |ts| - 1;
      var rest := Items(ts[..n], p);
      ItemsAre(ts[..n], p);
      forall t: nat | t < n && IsAt(ts[t].status, p) ensures Item(ts[t].id, ts[t].ref, t) in rest {
        assert ts[..n][t] == ts[t];
      }
    }
  }

  lemma {:induction false} SameItems(ts: seq<Ticket>, p: Place, ts': seq<Ticket>, p': Place)
    requires |ts'| == |ts|
    requires forall t | 0 <= t < |ts| ::
               && ts'[t].id == ts[t].id && ts'[t].ref == ts[t].ref
               && (IsAt(ts'[t].status, p') <==> IsAt(ts[t].status, p))
    ensures Items(ts', p') == Items(ts, p)
  {
    if ts == [] {
    } else {
      SameItems(ts[..|ts| - 1], p, ts'[..|ts| - 1], p');
    }
  }

  lemma {:induction false} NoItems(ts: seq<Ticket>, p: Place)
    requires forall t | 0 <= t < |ts| :: !IsAt(ts[t].status, p)
    ensures Items(ts, p) == []
  {
    if ts == [] {
    } else {
      NoItems(ts[..|ts| - 1], p);
    }
  }

  lemma ItemsSnoc(ts: seq<Ticket>, x: Ticket, p: Place)
    ensures Items(ts + [x], p) == Items(ts, p) + (if IsAt(x.status, p) then [Item(x.id, x.ref, |ts|)] else [])
  {
    assert (ts + [x])[..|ts|] == ts;
  }

  /** Moving the oldest item out of its place takes the front. */
  lemma {:induction false} FrontLeaves(ts: seq<Ticket>, p: Place, f: nat, st: Status)
    requires f < |ts| && IsAt(ts[f].status, p) && (forall i | 0 <= i < f :: !IsAt(ts[i].status, p)) && !IsAt(st, p)
    ensures var items := Items(ts, p);
            && items != [] && items[0] == Item(ts[f].id, ts[f].ref, f)
            && Items(ts[f := ts[f].(status := st)], p) == items[1..]
  {
    var n := |ts| - 1;
    var ts' := ts[f := ts[f].(status := st)];
    if f == n {
      assert ts'[..n] == ts[..n];
      NoItems(ts[..n], p);
    } else {
      FrontLeaves(ts[..n], p, f, st);
      assert ts'[..n] == ts[..n][f := ts[..n][f].(status := st)];
    }
  }

  function Without(q: seq<Item>, id: nat): seq<Item> {
    if q == [] then []
    else Without(q[..|q| - 1], id) + (if q[|q| - 1].id == id then [] else [q[|q| - 1]])
  }

  lemma {:induction false} ItemsRemoved(ts: seq<Ticket>, id: nat)
    ensures Items(RemovedById(ts, id), InQueue) == Without(Items(ts, InQueue), id)
  {
    if ts == [] {
    } else {
      var n := |ts| - 1;
      ItemsRemoved(ts[..n], id);
      assert RemovedById(ts, id)[..n] == RemovedById(ts[..n], id);
      var rest := Items(ts[..n], InQueue);
      if ts[n].status.Queued? {
        assert (rest + [Item(ts[n].id, ts[n].ref, n)])[..|rest|] == rest;
      } else {
        assert rest + [] == rest;
      }
    }
  }

  lemma {:induction false} WithoutIs(q: seq<Item>, id: nat)
    ensures forall x :: x in Without(q, id) <==> x in q && x.id != id
  {
    if q == [] {
    } else {
      var n := |q| - 1;
      WithoutIs(q[..n], id);
      assert q == q[..n] + [q[n]];
    }
  }

  /** Every pending ticket decided the same way. */
  function AllDecided(ts: seq<Ticket>, a: Action): seq<Ticket> {
    seq(|ts|, i requires 0 <= i < |ts| => if ts[i].status.Queued? then ts[i].(status := Posted(a)) else ts[i])
  }

  // --------------------------------------------------------- the callbacks made

  /** How often the callback of ticket t has been made. */
  function Times(fired: seq<(nat, Action)>, t: nat): nat {
    if fired == [] then 0 else Times(fired[..|fired| - 1], t) + (if fired[|fired| - 1].0 == t then 1 else 0)
  }

  lemma TimesSnoc(fired: seq<(nat, Action)>, c: (nat, Action), t: nat)
    ensures Times(fired + [c], t) == Times(fired, t) + (if c.0 == t then 1 else 0)
  {
    assert (fired + [c])[..|fired|] == fired;
  }

  predicate Decided(st: Status) {
    st.Posted? || st.Ran?
  }

  /** A decided ticket has been called back once, and with its action; every other one
      not at all; and there are no other calls. */
  ghost predicate FiredOk(ts: seq<Ticket>, fired: seq<(nat, Action)>) {
    && (forall c | c in fired :: c.0 < |ts| && Decided(ts[c.0].status) && ts[c.0].status.a == c.1)
    && (forall t: nat | t < |ts| :: Times(fired, t) == (if Decided(ts[t].status) then 1 else 0))
  }

  /** One ticket is decided and its callback made. */
  lemma FiredOne(ts: seq<Ticket>, fired: seq<(nat, Action)>, t: nat, a: Action, ts': seq<Ticket>)
    requires FiredOk(ts, fired) && t < |ts| && !Decided(ts[t].status) && |ts'| == |ts|
    requires ts'[t].status == Posted(a) && forall i: nat | i < |ts| && i != t :: SameDecision(ts[i], ts'[i])
    ensures FiredOk(ts', fired + [(t, a)])
  {
    forall i: nat | i < |ts| ensures Times(fired + [(t, a)], i) == (if Decided(ts'[i].status) then 1 else 0) {
      TimesSnoc(fired, (t, a), i);
    }
    hide Times;
  }

  predicate SameDecision(x: Ticket, y: Ticket) {
    (Decided(y.status) <==> Decided(x.status)) && (Decided(x.status) ==> y.status.a == x.status.a)
  }

  /** Tickets may move without being decided, and new ones arrive. */
  lemma FiredNone(ts: seq<Ticket>, fired: seq<(nat, Action)>, ts': seq<Ticket>)
    requires FiredOk(ts, fired) && |ts| <= |ts'|
    requires forall i: nat | i < |ts| :: SameDecision(ts[i], ts'[i])
    requires forall i: nat | |ts| <= i < |ts'| :: !Decided(ts'[i].status)
    ensures FiredOk(ts', fired)
  {
    forall i: nat | |ts| <= i < |ts'| ensures Times(fired, i) == 0 {
      NeverFired(fired, i);
    }
    hide Times;
  }

  lemma {:induction false} NeverFired(fired: seq<(nat, Action)>, t: nat)
    requires forall c | c in fired :: c.0 != t
    ensures Times(fired, t) == 0
  {
    if fired == [] {
    } else {
      assert fired[|fired| - 1] in fired;
      NeverFired(fired[..|fired| - 1], t);
    }
  }

  lemma EmptyIff(ts: seq<Ticket>)
    ensures Items(ts, InQueue) == [] <==> FirstQueued(ts, 0) == |ts|
  {
    if FirstQueued(ts, 0) == |ts| {
      NoItems(ts, InQueue);
    } else {
      ItemsAre(ts, InQueue);
    }
  }

  lemma FiredKept(ts: seq<Ticket>, fired: seq<(nat, Action)>, id: nat)
    requires FiredOk(ts, fired)
    ensures FiredOk(RemovedById(ts, id), fired)
  {
    hide FiredOk;
    FiredNone(ts, fired, RemovedById(ts, id));
  }

  // --------------------------------------------------------- what one thread does

  /** Taking the front and calling back at once. */
  lemma TakenAndDelivered(ts: seq<Ticket>, th: nat, a: Action)
    requires ThreadIdle(ts, th)
    ensures var q := Items(ts, InQueue); var ts' := Delivered(TookFront(ts, th, a), th);
            && ThreadIdle(ts', th) && Items(ts', InQueue) == (if q == [] then [] else q[1..])
            && (q == [] ==> ts' == ts)
  {
    EmptyIff(ts);
    var f := FirstQueued(ts, 0);
    if f < |ts| {
      FrontLeaves(ts, InQueue, f, Posted(a));
      DeliveredFront(ts, th, a);
    }
  }

  /** The thread has called back on the first i of the requests it took. */
  ghost predicate PartlyDelivered(ts: seq<Ticket>, th: nat, a: Action, i: nat, ts': seq<Ticket>) {
    && |ts'| == |ts|
    && i <= |Items(ts, InQueue)| && Items(ts', InHand(th)) == Items(ts, InQueue)[i..]
    && forall t | 0 <= t < |ts| ::
         if ts[t].status.Queued? then ts'[t] == ts[t].(status := Taken(th, a)) || ts'[t] == ts[t].(status := Posted(a))
         else ts'[t] == ts[t]
  }

  lemma FrontDecided(ts: seq<Ticket>, th: nat, a: Action, fired: seq<(nat, Action)>)
    requires ThreadIdle(ts, th) && Items(ts, InQueue) != [] && FiredOk(ts, fired)
    ensures FiredOk(Delivered(TookFront(ts, th, a), th), fired + [(Items(ts, InQueue)[0].t, a)])
  {
    EmptyIff(ts);
    var f := FirstQueued(ts, 0);
    FrontLeaves(ts, InQueue, f, Posted(a));
    DeliveredFront(ts, th, a);
    hide FiredOk, Items;
    FiredOne(ts, fired, f, a, Delivered(TookFront(ts, th, a), th));
  }

  lemma DeliveredFront(ts: seq<Ticket>, th: nat, a: Action)
    requires ThreadIdle(ts, th) && FirstQueued(ts, 0) < |ts|
    ensures var f := FirstQueued(ts, 0); Delivered(TookFront(ts, th, a), th) == ts[f := ts[f].(status := Posted(a))]
  {
    var f, took := FirstQueued(ts, 0), TookFront(ts, th, a);
    assert forall i | 0 <= i < |ts| :: !IsAt(ts[i].status, InHand(th));
    assert took[f].status == Taken(th, a) && forall i | 0 <= i < f :: took[i] == ts[i];
    assert FirstTaken(took, th, 0) == f;
  }

  lemma AllTaken(ts: seq<Ticket>, th: nat, a: Action, fired: seq<(nat, Action)>)
    requires ThreadIdle(ts, th) && FiredOk(ts, fired)
    ensures PartlyDelivered(ts, th, a, 0, TookAll(ts, th, a)) && FiredOk(TookAll(ts, th, a), fired)
  {
    SameItems(ts, InQueue, TookAll(ts, th, a), InHand(th));
    hide FiredOk, Items;
    FiredNone(ts, fired, TookAll(ts, th, a));
  }

  /** The callbacks of the first n items of q have been made since, in order. */
  ghost predicate CalledBack(before: seq<(nat, Action)>, q: seq<Item>, n: nat, a: Action, fired: seq<(nat, Action)>) {
    && n <= |q| && |fired| == |before| + n && fired[..|before|] == before
    && forall i | 0 <= i < n :: fired[|before| + i] == (q[i].t, a)
  }

  lemma CalledNone(before: seq<(nat, Action)>, q: seq<Item>, a: Action)
    ensures CalledBack(before, q, 0, a, before)
  {
  }

  lemma CalledNext(before: seq<(nat, Action)>, q: seq<Item>, n: nat, a: Action, fired: seq<(nat, Action)>)
    requires CalledBack(before, q, n, a, fired) && n < |q|
    ensures CalledBack(before, q, n + 1, a, fired + [(q[n].t, a)])
  {
  }

  lemma CalledAll(before: seq<(nat, Action)>, q: seq<Item>, a: Action, fired: seq<(nat, Action)>)
    requires CalledBack(before, q, |q|, a, fired)
    ensures |fired| == |before| + |q| && fired[..|before|] == before
    ensures forall i | 0 <= i < |q| :: fired[|before| + i] == (q[i].t, a)
  {
  }

  lemma DeliverNext(ts: seq<Ticket>, th: nat, a: Action, i: nat, ts': seq<Ticket>)
    requires ThreadIdle(ts, th) && PartlyDelivered(ts, th, a, i, ts') && i < |Items(ts, InQueue)|
    ensures PartlyDelivered(ts, th, a, i + 1, Delivered(ts', th))
    ensures var f := Items(ts, InQueue)[i].t;
            && f < |ts'| && ts'[f].status == Taken(th, a)
            && Delivered(ts', th) == ts'[f := ts'[f].(status := Posted(a))]
  {
    var f := FirstTaken(ts', th, 0);
    ItemsAre(ts', InHand(th));
    assert Items(ts', InHand(th))[0] in Items(ts', InHand(th));
    FrontLeaves(ts', InHand(th), f, Posted(a));
  }

  /** The next callback is that of the oldest request still in hand. */
  lemma DeliverAndFire(
      ts: seq<Ticket>, th: nat, a: Action, i: nat, ts': seq<Ticket>, fired: seq<(nat, Action)>)
    requires ThreadIdle(ts, th) && PartlyDelivered(ts, th, a, i, ts') && i < |Items(ts, InQueue)|
    requires FiredOk(ts', fired)
    ensures PartlyDelivered(ts, th, a, i + 1, Delivered(ts', th))
    ensures FiredOk(Delivered(ts', th), fired + [(Items(ts, InQueue)[i].t, a)])
  {
    DeliverNext(ts, th, a, i, ts');
    hide FiredOk, PartlyDelivered, Delivered, Items;
    FiredOne(ts', fired, Items(ts, InQueue)[i].t, a, Delivered(ts', th));
  }

  lemma AllDelivered(ts: seq<Ticket>, th: nat, a: Action, ts': seq<Ticket>)
    requires ThreadIdle(ts, th) && PartlyDelivered(ts, th, a, |Items(ts, InQueue)|, ts')
    ensures ts' == AllDecided(ts, a) && ThreadIdle(ts', th) && Items(ts', InQueue) == []
  {
    ItemsAre(ts', InHand(th));
    assert forall t | 0 <= t < |ts| :: !IsAt(ts'[t].status, InHand(th));
    NoItems(ts', InQueue);
  }

  class InterceptManager {
    var enabled: bool
    var queue: seq<Item>
    var listening: bool
    ghost var tickets: seq<Ticket>
    /** The callbacks made, with their action, in order. */
    ghost var fired: seq<(nat, Action)>
    ghost var notices: nat

    ghost predicate Valid()
      reads this
    {
      queue == Items(tickets, InQueue) && FiredOk(tickets, fired)
    }

    constructor ()
      ensures Valid() && !enabled && queue == [] && tickets == [] && fired == [] && !listening && notices == 0
    {
      enabled, queue, listening := false, [], false;
      tickets, fired, notices := [], [], 0;
    }

    method Notify()
      modifies this`notices
      ensures notices == old(notices) + (if listening then 1 else 0)
    {
      if listening { notices := notices + 1; }
    }

    method SetNotifyCallback(given: bool)
      requires Valid()
      modifies this`listening
      ensures Valid() && listening == given
    {
      listening := given;
    }

    method SetInterceptEnabled(on: bool, ghost th: nat)
      requires Valid() && ThreadIdle(tickets, th)
      modifies this
      ensures Valid() && enabled == on && listening == old(listening) && ThreadIdle(tickets, th)
      ensures on ==> queue == old(queue) && tickets == old(tickets) && fired == old(fired)
      ensures !on ==> queue == [] && tickets == AllDecided(old(tickets), Forward)
      ensures !on ==>
        && |fired| == |old(fired)| + |old(queue)| && fired[..|old(fired)|] == old(fired)
        && forall i | 0 <= i < |old(queue)| :: fired[|old(fired)| + i] == (old(queue)[i].t, Forward)
      ensures notices == old(notices) + (if listening then 1 else 0)
    {
      enabled := on;
      if !on { ForwardAll(th); } else { Notify(); }
    }

    /** A new request joins the back of the queue; its callback is named by its ticket. */
    method InterceptRequest(id: nat, ref: nat, onDecision: nat, ghost sess: nat)
      requires Valid() && onDecision == |tickets|
      modifies this`queue, this`tickets, this`notices
      ensures Valid() && tickets == old(tickets) + [Ticket(id, sess, ref, Queued)]
      ensures queue == old(queue) + [Item(id, ref, onDecision)]
      ensures notices == old(notices) + (if listening then 1 else 0)
    {
      ItemsSnoc(tickets, Ticket(id, sess, ref, Queued), InQueue);
      FiredNone(tickets, fired, tickets + [Ticket(id, sess, ref, Queued)]);
      queue := queue + [Item(id, ref, onDecision)];
      tickets := tickets + [Ticket(id, sess, ref, Queued)];
      Notify();
    }

    method HasPending() returns (r: bool)
      requires Valid()
      ensures r <==> FirstQueued(tickets, 0) < |tickets|
    {
      EmptyIff(tickets);
      r := queue != [];
    }

    /** The front of the queue is the oldest pending request. */
    method PeekCurrent() returns (r: Option<Item>)
      requires Valid()
      ensures var f := FirstQueued(tickets, 0);
              r == if f < |tickets| then Some(Item(tickets[f].id, tickets[f].ref, f)) else None
    {
      EmptyIff(tickets);
      if queue == [] { return None; }
      FrontLeaves(tickets, InQueue, FirstQueued(tickets, 0), Removed);
      r := Some(queue[0]);
    }

    method ForwardCurrent(ghost th: nat) returns (ok: bool)
      requires Valid() && ThreadIdle(tickets, th)
      modifies this`queue, this`tickets, this`fired, this`notices
      ensures Valid() && ThreadIdle(tickets, th) && ok == (old(queue) != [])
      ensures tickets == Delivered(TookFront(old(tickets), th, Forward), th)
      ensures queue == if ok then old(queue[1..]) else []
      ensures fired == if ok then old(fired) + [(old(queue)[0].t, Forward)] else old(fired)
      ensures notices == old(notices) + (if ok && listening then 1 else 0)
    {
      TakenAndDelivered(tickets, th, Forward);
      if queue == [] {
        return false;
      }
      FrontDecided(tickets, th, Forward, fired);
      var item := queue[0];
      queue := queue[1..];
      tickets := TookFront(tickets, th, Forward);

      fired := fired + [(item.t, Forward)];
      tickets := Delivered(tickets, th);
      Notify();
      ok := true;
    }

    method DropCurrent(ghost th: nat) returns (ok: bool)
      requires Valid() && ThreadIdle(tickets, th)
      modifies this`queue, this`tickets, this`fired, this`notices
      ensures Valid() && ThreadIdle(tickets, th) && ok == (old(queue) != [])
      ensures tickets == Delivered(TookFront(old(tickets), th, Drop), th)
      ensures queue == if ok then old(queue[1..]) else []
      ensures fired == if ok then old(fired) + [(old(queue)[0].t, Drop)] else old(fired)
      ensures notices == old(notices) + (if ok && listening then 1 else 0)
    {
      TakenAndDelivered(tickets, th, Drop);
      if queue == [] {
        return false;
      }
      FrontDecided(tickets, th, Drop, fired);
      var item := queue[0];
      queue := queue[1..];
      tickets := TookFront(tickets, th, Drop);

      fired := fired + [(item.t, Drop)];
      tickets := Delivered(tickets, th);
      Notify();
      ok := true;
    }

    /** Everything pending is forwarded, oldest first. */
    method ForwardAll(ghost th: nat)
      requires Valid() && ThreadIdle(tickets, th)
      modifies this`queue, this`tickets, this`fired, this`notices
      ensures Valid() && ThreadIdle(tickets, th) && queue == []
      ensures tickets == AllDecided(old(tickets), Forward)
      ensures |fired| == |old(fired)| + |old(queue)| && fired[..|old(fired)|] == old(fired)
      ensures forall i | 0 <= i < |old(queue)| :: fired[|old(fired)| + i] == (old(queue)[i].t, Forward)
      ensures notices == old(notices) + (if listening then 1 else 0)
    {
      ghost var ts, before := tickets, fired;
      var toForward := queue;
      queue := [];
      tickets := TookAll(tickets, th, Forward);

      AllTaken(ts, th, Forward, fired);
      CalledNone(fired, toForward, Forward);
      hide PartlyDelivered, FiredOk, CalledBack, Items, TookAll, Delivered, AllDecided;
      for i := 0 to |toForward|
        invariant PartlyDelivered(ts, th, Forward, i, tickets) && FiredOk(tickets, fired)
        invariant CalledBack(before, toForward, i, Forward, fired)
        invariant queue == [] && notices == old(notices)
      {
        DeliverAndFire(ts, th, Forward, i, tickets, fired);
        CalledNext(before, toForward, i, Forward, fired);
        fired := fired + [(toForward[i].t, Forward)];
        tickets := Delivered(tickets, th);
      }
      AllDelivered(ts, th, Forward, tickets);
      CalledAll(before, toForward, Forward, fired);
      Notify();
    }

    method DropAll(ghost th: nat)
      requires Valid() && ThreadIdle(tickets, th)
      modifies this`queue, this`tickets, this`fired, this`notices
      ensures Valid() && ThreadIdle(tickets, th) && queue == []
      ensures tickets == AllDecided(old(tickets), Drop)
      ensures |fired| == |old(fired)| + |old(queue)| && fired[..|old(fired)|] == old(fired)
      ensures forall i | 0 <= i < |old(queue)| :: fired[|old(fired)| + i] == (old(queue)[i].t, Drop)
      ensures notices == old(notices) + (if listening then 1 else 0)
    {
      ghost var ts, before := tickets, fired;
      var toDrop := queue;
      queue := [];
      tickets := TookAll(tickets, th, Drop);

      AllTaken(ts, th, Drop, fired);
      CalledNone(fired, toDrop, Drop);
      hide PartlyDelivered, FiredOk, CalledBack, Items, TookAll, Delivered, AllDecided;
      for i := 0 to |toDrop|
        invariant PartlyDelivered(ts, th, Drop, i, tickets) && FiredOk(tickets, fired)
        invariant CalledBack(before, toDrop, i, Drop, fired)
        invariant queue == [] && notices == old(notices)
      {
        DeliverAndFire(ts, th, Drop, i, tickets, fired);
        CalledNext(before, toDrop, i, Drop, fired);
        fired := fired + [(toDrop[i].t, Drop)];
        tickets := Delivered(tickets, th);
      }
      AllDelivered(ts, th, Drop, tickets);
      CalledAll(before, toDrop, Drop, fired);
      Notify();
    }

    /** The pending items with that id go, the others keep their order; no callback runs. */
    method RemoveById(id: nat)
      requires Valid()
      modifies this`queue, this`tickets, this`notices
      ensures Valid() && tickets == RemovedById(old(tickets), id) && queue == Without(old(queue), id)
      ensures forall x :: x in queue <==> x in old(queue) && x.id != id
      ensures forall i, j | 0 <= i < j < |queue| :: queue[i].t < queue[j].t
      ensures notices == old(notices) + (if listening && queue != old(queue) then 1 else 0)
    {
      FiredKept(tickets, fired, id);
      hide FiredOk;
      var kept := [];
      for i := 0 to |queue|
        invariant kept == Without(queue[..i], id) && |kept| <= i
        invariant |kept| == i ==> kept == queue[..i]
      {
        assert queue[..i + 1][..i] == queue[..i];
        if queue[i].id != id {
          kept := kept + [queue[i]];
        }
      }
      assert queue[..|queue|] == queue;
      WithoutIs(queue, id);
      ItemsRemoved(tickets, id);
      tickets := RemovedById(tickets, id);
      ItemsAre(tickets, InQueue);
      if |kept| != |queue| {
        queue := kept;
        Notify();
      }
    }
  }
}
