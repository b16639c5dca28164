/** Any number of threads looking up, touching and clearing, in every interleaving.

A lookup is a step under the shared lock, a gap if the host was missing, and a step
under the exclusive lock. */
module CertCacheRuns {
  import opened CertCacheSpec

  datatype Answer = Answer(host: string, entry: Entry)

  datatype State = State(
    cache: Cache, waiting: map<nat, string>, log: seq<Use>, answers: seq<Answer>, generated: seq<string>)

  datatype Event =
    | Lookup(th: nat, host: string)   // the shared-lock part of getEntry
    | Finish(th: nat, mint: Entry)    // the exclusive part; mint is what generating gives
    | Touch(host: string)
    | Clear

  const EMPTY := State(Cache([], map[]), map[], [], [], [])

  function LookedUp(s: State, th: nat, h: string): State {
    if th in s.waiting then s
    else if h == "" then s.(answers := s.answers + [Answer(h, NO_ENTRY)])
    else if h in s.cache.items then s.(answers := s.answers + [Answer(h, s.cache.items[h])])
    else s.(waiting := s.waiting[th := h])
  }

  function Finished(s: State, max: nat, th: nat, mint: Entry): State {
    if th !in s.waiting then s
    else
      var h := s.waiting[th];
      var (c, answer) := Minted(s.cache, max, h, mint);
      State(c, s.waiting - {th},
            s.log + (if h in s.cache.items || !Failed(mint) then [Used(h)] else []),
            s.answers + [Answer(h, answer)],
            s.generated + (if h in s.cache.items then [] else [h]))
  }

  function Step(max: nat, s: State, e: Event): State {
    match e
    case Lookup(th, h) => LookedUp(s, th, h)
    case Finish(th, mint) => Finished(s, max, th, mint)
    case Touch(h) => if h in s.cache.items then s.(cache := Promote(s.cache, h), log := s.log + [Used(h)]) else s
    case Clear => s.(cache := Cache([], map[]), log := s.log + [Cleared])
  }

  function Exec(max: nat, events: seq<Event>): State {
    if events == [] then EMPTY
    else Step(max, Exec(max, events[..|events| - 1]), events[|events| - 1])
  }

  // -------------------------------------------------------------------- the recency list

  lemma StepRecent(max: nat, s: State, e: Event)
    requires Recent(s.cache, max, s.log)
    ensures Recent(Step(max, s, e).cache, max, Step(max, s, e).log)
  {
    hide Recent, Promote, Inserted;
    assert s.log + [] == s.log;
    match e
    case Lookup(_, _) =>
    case Finish(th, mint) =>
      if th in s.waiting {
        var h := s.waiting[th];
        if h in s.cache.items { PromoteRecent(s.cache, max, s.log, h); }
        else if !Failed(mint) { InsertRecent(s.cache, max, s.log, h, mint); }
      }
    case Touch(h) => if h in s.cache.items { PromoteRecent(s.cache, max, s.log, h); }
    case Clear => ClearRecent(max, s.log);
  }

  lemma ClearRecent(max: nat, log: seq<Use>)
    ensures Recent(Cache([], map[]), max, log + [Cleared])
  {
    var none: set<string> := set h | h in [];
    assert none == {};
  }

  /** After any interleaving the resident hosts, in order, are the first `max` of the
      distinct hosts by last insertion or promotion since the last clear; the map has
      exactly those hosts. */
  lemma {:induction false} AlwaysRecent(max: nat, events: seq<Event>)
    ensures Recent(Exec(max, events).cache, max, Exec(max, events).log)
  {
    if events == [] {
      var none: set<string> := set h | h in [];
      assert none == {};
      assert Recency([]) == [];
    } else {
      hide Recent, Step;
      AlwaysRecent(max, events[..|events| - 1]);
      StepRecent(max, Exec(max, events[..|events| - 1]), events[|events| - 1]);
    }
  }

  // ---------------------------------------------------------------------- residencies

  function Times(hosts: seq<string>, h: string): nat {
    if hosts == [] then 0 else Times(hosts[..|hosts| - 1], h) + (if hosts[|hosts| - 1] == h then 1 else 0)
  }

  lemma TimesMore(hosts: seq<string>, x: string, h: string)
    ensures Times(hosts + [x], h) == Times(hosts, h) + (if x == h then 1 else 0)
  {
    assert (hosts + [x])[..|hosts|] == hosts;
  }

  predicate Resident(s: State, h: string) {
    h in s.cache.items
  }

  /** Since `from`, lookups of h were answered with this entry. */
  predicate AnsweredWith(answers: seq<Answer>, from: nat, h: string, entry: Entry) {
    forall i | from <= i < |answers| && answers[i].host == h :: answers[i].entry == entry
  }

  /** From s to s' the entry of h is the same, all its lookups were answered with it,
      and h was not generated. */
  predicate SameResidency(s: State, s': State, h: string) {
    && Resident(s, h) && Resident(s', h) && s'.cache.items[h] == s.cache.items[h]
    && Times(s'.generated, h) == Times(s.generated, h)
    && |s.answers| <= |s'.answers| && s'.answers[..|s.answers|] == s.answers
    && AnsweredWith(s'.answers, |s.answers|, h, s.cache.items[h])
  }

  lemma InsertOther(c: Cache, max: nat, g: string, mint: Entry, h: string)
    requires h in c.items && g !in c.items && h in Inserted(c, max, g, mint).items
    ensures Inserted(c, max, g, mint).items[h] == c.items[h]
  {
  }

  lemma FinishResident(max: nat, s: State, th: nat, mint: Entry, h: string)
    requires Resident(s, h) && Resident(Finished(s, max, th, mint), h)
    ensures SameResidency(s, Finished(s, max, th, mint), h)
  {
    if th in s.waiting {
      var g := s.waiting[th];
      assert s.generated + [] == s.generated;
      if g !in s.cache.items {
        TimesMore(s.generated, g, h);
        if !Failed(mint) { InsertOther(s.cache, max, g, mint, h); }
      }
      hide Inserted, Times, Without;
    }
  }

  /** A host that is resident before and after a step keeps its entry; the step answers
      its lookups with that entry and does not generate it again. */
  lemma StepResident(max: nat, s: State, e: Event, h: string)
    requires h != "" && Resident(s, h) && Resident(Step(max, s, e), h)
    ensures SameResidency(s, Step(max, s, e), h)
  {
    match e
    case Lookup(_, _) =>
    case Finish(th, mint) => FinishResident(max, s, th, mint, h);
    case Touch(_) =>
    case Clear =>
  }

  /** h is resident after `events` and after each further event. */
  ghost predicate StaysResident(max: nat, events: seq<Event>, more: seq<Event>, h: string) {
    forall i | 0 <= i <= |more| :: Resident(Exec(max, events + more[..i]), h)
  }

  /** As long as a host stays resident every lookup of it, by whatever thread, is
      answered with the same key pair and context, and nothing is generated for it. */
  lemma {:induction false} ResidencyConstant(max: nat, events: seq<Event>, more: seq<Event>, h: string)
    requires h != "" && StaysResident(max, events, more, h)
    ensures SameResidency(Exec(max, events), Exec(max, events + more), h)
  {
    hide Step, Resident, SameResidency;
    if more == [] {
      assert events + more == events && more[..0] == [];
      SameToSelf(Exec(max, events), h);
    } else {
      var n := |more| - 1;
      StaysShorter(max, events, more, h);
      ResidencyConstant(max, events, more[..n], h);
      StepResident(max, Exec(max, events + more[..n]), more[n], h);
      SameChain(Exec(max, events), Exec(max, events + more[..n]), Exec(max, events + more), h);
    }
  }

  lemma StaysShorter(max: nat, events: seq<Event>, more: seq<Event>, h: string)
    requires more != [] && StaysResident(max, events, more, h)
    ensures var n := |more| - 1;
            && StaysResident(max, events, more[..n], h)
               && Exec(max, events + more) == Step(max, Exec(max, events + more[..n]), more[n])
            && Resident(Exec(max, events + more[..n]), h) && Resident(Exec(max, events + more), h)
  {
    var n := |more| - 1;
    hide Step, Resident;
    assert more[..|more|] == more;
    forall i | 0 <= i <= n ensures Resident(Exec(max, events + more[..n][..i]), h) {
      assert more[..n][..i] == more[..i];
    }
    assert (events + more)[..|events + more| - 1] == events + more[..n];
  }

  lemma SameToSelf(s: State, h: string)
    requires Resident(s, h)
    ensures SameResidency(s, s, h)
  {
  }

  lemma SameChain(s: State, t: State, u: State, h: string)
    requires SameResidency(s, t, h) && SameResidency(t, u, h)
    ensures SameResidency(s, u, h)
  {
    var entry := s.cache.items[h];
    forall i | |s.answers| <= i < |u.answers| && u.answers[i].host == h ensures u.answers[i].entry == entry {
      if i < |t.answers| { assert u.answers[..|t.answers|][i] == t.answers[i]; }
    }
  }

  /** A residency starts only by a thread's exclusive step with one successful generate,
      whose result is cached and is that thread's answer. */
  lemma ResidencyStarts(max: nat, s: State, e: Event, h: string)
    requires !Resident(s, h) && Resident(Step(max, s, e), h)
    ensures e.Finish? && e.th in s.waiting && s.waiting[e.th] == h
    ensures e.mint.pair.certPem != "" && e.mint.pair.keyPem != ""
    ensures var s' := Step(max, s, e);
            && s'.cache.items[h] == e.mint && s'.answers == s.answers + [Answer(h, e.mint)]
            && s'.generated == s.generated + [h]
  {
    match e
    case Lookup(_, _) =>
    case Finish(_, _) =>
    case Touch(_) =>
    case Clear =>
  }

  /** It ends only by a clear, or when the cache is full and the host the oldest. */
  lemma ResidencyEnds(max: nat, s: State, e: Event, h: string)
    requires Resident(s, h) && !Resident(Step(max, s, e), h)
    ensures || e == Clear
            || (e.Finish? && s.cache.list != [] && h == s.cache.list[|s.cache.list| - 1] && |s.cache.items| >= max > 0)
  {
    match e
    case Lookup(_, _) =>
    case Finish(_, _) =>
    case Touch(_) =>
    case Clear =>
  }
}
