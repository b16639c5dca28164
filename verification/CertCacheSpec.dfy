/** The certificate cache as values: a recency list and a map; and what a truncated
    recency list is (src/proxy/CertCache.cpp).

Minting a certificate and building its TLS context are foreign calls: their outcome is
a parameter.  A lookup takes the shared lock, and on a miss, later, the exclusive one;
anything may happen in between. */
module CertCacheSpec {
  import opened Text

  datatype KeyPair = KeyPair(certPem: string, keyPem: string)
  /** The context is named; it may be missing, and is then cached as missing. */
  datatype Entry = Entry(pair: KeyPair, context: Option<nat>)
  const NO_ENTRY := Entry(KeyPair("", ""), None)

  datatype Cache = Cache(list: seq<string>, items: map<string, Entry>)

  predicate Failed(mint: Entry) {
    mint.pair.certPem == "" || mint.pair.keyPem == ""
  }

  // -------------------------------------------------------------- lists without repeats

  predicate Distinct<T(==)>(s: seq<T>) {
    forall i, j | 0 <= i < j < |s| :: s[i] != s[j]
  }

  function Without(s: seq<string>, h: string): seq<string> {
    if s == [] then []
    else Without(s[..|s| - 1], h) + (if s[|s| - 1] == h then [] else [s[|s| - 1]])
  }

  lemma {:induction false} WithoutAbsent(s: seq<string>, h: string)
    requires h !in s
    ensures Without(s, h) == s
  {
    if s == [] {
    } else {
      WithoutAbsent(s[..|s| - 1], h);
    }
  }

  lemma {:induction false} WithoutAt(s: seq<string>, i: nat)
    requires Distinct(s) && i < |s|
    ensures Without(s, s[i]) == s[..i] + s[i + 1..]
    ensures s[i] !in Without(s, s[i]) && Distinct(Without(s, s[i]))
  {
    var n := |s| - 1;
    if i == n {
      WithoutAbsent(s[..n], s[n]);
      assert s[..n] + [] == s[..n] + s[n + 1..];
    } else {
      WithoutAt(s[..n], i);
      assert s[..n][i + 1..] + [s[n]] == s[i + 1..];
    }
  }

  lemma {:induction false} DistinctCount<T>(s: seq<T>)
    requires Distinct(s)
    ensures |set x | x in s| == |s|
  {
    if s != [] {
      var n := |s| - 1;
      DistinctCount(s[..n]);
      assert (set x | x in s) == (set x | x in s[..n]) + {s[n]};
    } else {
      assert (set x | x in s) == {};
    }
  }

  function Take(s: seq<string>, n: nat): seq<string> {
    if |s| <= n then s else s[..n]
  }

  // ------------------------------------------------------------------ the operations

  function Promote(c: Cache, h: string): Cache {
    if h in c.items then c.(list := [h] + Without(c.list, h)) else c
  }

  /** Room for one more: the oldest host goes when the cache is full. */
  function Evicted(c: Cache, max: nat): Cache {
    if max > 0 && |c.items| >= max && c.list != []
    then Cache(c.list[..|c.list| - 1], c.items - {c.list[|c.list| - 1]})
    else c
  }

  function Inserted(c: Cache, max: nat, h: string, e: Entry): Cache {
    var d := Evicted(c, max);
    if max > 0 then Cache([h] + d.list, d.items[h := e]) else d
  }

  /** The exclusive part of a lookup: the cache after it and the answer. */
  function Minted(c: Cache, max: nat, h: string, mint: Entry): (Cache, Entry) {
    if h in c.items then (Promote(c, h), c.items[h])
    else if Failed(mint) then (c, Entry(mint.pair, None))
    else (Inserted(c, max, h, mint), mint)
  }

  ghost predicate Wellformed(c: Cache, max: nat) {
    Distinct(c.list) && (set h | h in c.list) == c.items.Keys && |c.list| <= max
  }

  // ------------------------------------------------------------ the recency of hosts

  /** A host was inserted or promoted; or the cache was cleared. */
  datatype Use = Used(host: string) | Cleared

  /** The distinct hosts used since the last clear, the latest first; evicted or not. */
  function Recency(log: seq<Use>): seq<string> {
    if log == [] then []
    else match log[|log| - 1]
      case Used(h) => [h] + Without(Recency(log[..|log| - 1]), h)
      case Cleared => []
  }

  lemma {:induction false} RecencyDistinct(log: seq<Use>)
    ensures Distinct(Recency(log))
  {
    if log == [] || log[|log| - 1].Cleared? {
    } else {
      var r, h := Recency(log[..|log| - 1]), log[|log| - 1].host;
      RecencyDistinct(log[..|log| - 1]);
      if h in r {
        var i: nat :| i < |r| && r[i] == h;
        WithoutAt(r, i);
      } else {
        WithoutAbsent(r, h);
      }
    }
  }

  /** What an independent least-recently-used cache of that size would hold. */
  ghost predicate Recent(c: Cache, max: nat, log: seq<Use>) {
    Wellformed(c, max) && c.list == Take(Recency(log), max)
  }

  lemma RecencyUsed(log: seq<Use>, h: string)
    ensures Recency(log + [Used(h)]) == [h] + Without(Recency(log), h)
  {
    assert (log + [Used(h)])[..|log|] == log;
  }

  lemma TakeCons(h: string, s: seq<string>, max: nat)
    requires max > 0
    ensures Take([h] + s, max) == [h] + Take(s, max - 1)
  {
  }

  /** Removing one of the first max leaves the same others among the first max - 1. */
  lemma TakeWithout(r: seq<string>, i: nat, max: nat)
    requires i < |r| && i < max
    ensures var t := Take(r, max); Take(r[..i] + r[i + 1..], max - 1) == t[..i] + t[i + 1..]
  {
  }

  lemma TakeOfLater(r: seq<string>, i: nat, max: nat)
    requires max <= i < |r| && max > 0
    ensures Take(r[..i] + r[i + 1..], max - 1) == Take(r, max - 1)
  {
  }

  lemma FrontTaken(r: seq<string>, max: nat, h: string)
    requires Distinct(r) && h in Take(r, max)
    ensures max > 0 && Take([h] + Without(r, h), max) == [h] + Without(Take(r, max), h)
  {
    var t := Take(r, max);
    var i: nat :| i < |t| && t[i] == h;
    assert r[i] == h && i < max && Distinct(t);
    WithoutAt(r, i);
    WithoutAt(t, i);
    TakeWithout(r, i, max);
    TakeCons(h, Without(r, h), max);
  }

  lemma NewTaken(r: seq<string>, max: nat, h: string)
    requires Distinct(r) && h !in Take(r, max) && max > 0
    ensures Take([h] + Without(r, h), max) == [h] + Take(r, max - 1)
  {
    TakeCons(h, Without(r, h), max);
    if h in r {
      var i: nat :| i < |r| && r[i] == h;
      NotAmongFirst(r, max, i);
      WithoutAt(r, i);
      TakeOfLater(r, i, max);
    } else {
      WithoutAbsent(r, h);
    }
  }

  lemma NotAmongFirst(r: seq<string>, max: nat, i: nat)
    requires i < |r|
    ensures i < max ==> r[i] in Take(r, max)
  {
    assert i < max ==> Take(r, max)[i] == r[i];
  }

  /** Moving a member to the front keeps the members and their distinctness. */
  lemma MovedToFront(s: seq<string>, h: string)
    requires Distinct(s) && h in s
    ensures Distinct([h] + Without(s, h)) && |[h] + Without(s, h)| == |s|
    ensures (set x | x in [h] + Without(s, h)) == (set x | x in s)
  {
    var i: nat :| i < |s| && s[i] == h;
    WithoutAt(s, i);
    assert s == s[..i] + [h] + s[i + 1..];
    assert forall x :: x in s <==> x in s[..i] || x == h || x in s[i + 1..];
  }

  lemma PromoteRecent(c: Cache, max: nat, log: seq<Use>, h: string)
    requires Recent(c, max, log) && h in c.items
    ensures Recent(Promote(c, h), max, log + [Used(h)])
  {
    assert h in c.items.Keys && h in c.list;
    RecencyDistinct(log);
    RecencyUsed(log, h);
    FrontTaken(Recency(log), max, h);
    MovedToFront(c.list, h);
    hide Recency, Without, Distinct;
  }

  lemma EvictedWellformed(c: Cache, max: nat)
    requires Wellformed(c, max) && max > 0
    ensures Wellformed(Evicted(c, max), max - 1) && Evicted(c, max).list == Take(c.list, max - 1)
    ensures Evicted(c, max).items.Keys <= c.items.Keys
  {
    DistinctCount(c.list);
    assert |c.items| == |c.items.Keys| == |c.list|;
    var d, n := Evicted(c, max), |c.list| - 1;
    if |c.list| >= max {
      assert c.list == c.list[..n] + [c.list[n]];
      assert d.items.Keys == c.items.Keys - {c.list[n]};
      forall x ensures x in d.list <==> x in c.list && x != c.list[n] {
        if x in c.list && x != c.list[n] { assert x in c.list[..n]; }
      }
    }
  }

  lemma Joined(s: seq<string>, h: string)
    requires Distinct(s) && h !in s
    ensures Distinct([h] + s) && (set x | x in [h] + s) == {h} + (set x | x in s)
  {
  }

  lemma InsertWellformed(c: Cache, max: nat, h: string, e: Entry)
    requires Wellformed(c, max) && h !in c.items && max > 0
    ensures Wellformed(Inserted(c, max, h, e), max) && Inserted(c, max, h, e).list == [h] + Take(c.list, max - 1)
  {
    EvictedWellformed(c, max);
    var d := Evicted(c, max);
    hide Evicted, Take, Distinct;
    assert h !in c.items.Keys && h !in d.items.Keys && h !in d.list;
    Joined(d.list, h);
    assert d.items[h := e].Keys == {h} + d.items.Keys;
  }

  lemma InsertRecent(c: Cache, max: nat, log: seq<Use>, h: string, e: Entry)
    requires Recent(c, max, log) && h !in c.items
    ensures Recent(Inserted(c, max, h, e), max, log + [Used(h)])
  {
    RecencyUsed(log, h);
    if max > 0 {
      assert h !in c.items.Keys && h !in c.list;
      RecencyDistinct(log);
      NewTaken(Recency(log), max, h);
      InsertWellformed(c, max, h, e);
      TakeTake(Recency(log), max);
      hide Recency, Without, Distinct, Inserted, Take, Wellformed;
    } else {
      assert Take(Recency(log + [Used(h)]), 0) == [];
    }
  }

  lemma TakeTake(r: seq<string>, max: nat)
    requires max > 0
    ensures Take(Take(r, max), max - 1) == Take(r, max - 1)
  {
  }
}
