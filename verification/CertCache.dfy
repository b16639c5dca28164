/** The certificate cache as an object: a list of nodes, and a map whose items hold the
    node of their host, as the stored list iterators do. */
module CertCaches {
  import opened Text
  import opened CertCacheSpec

  /** A list node; holding it is holding a list iterator. */
  class Node {
    const host: string

    constructor (host: string)
      ensures this.host == host
    {
      this.host := host;
    }
  }

  datatype CacheItem = CacheItem(entry: Entry, lruIt: Node)

  function Hosts(list: seq<Node>): (hs: seq<string>)
    ensures |hs| == |list|
  {
    seq(|list|, i requires 0 <= i < |list| => list[i].host)
  }

  function Entries(cache: map<string, CacheItem>): map<string, Entry> {
    map h | h in cache :: cache[h].entry
  }

  /** Each stored iterator names its own host's node, which is in the list; and every
      node in the list is some item's. */
  ghost predicate IteratorsValid(list: seq<Node>, cache: map<string, CacheItem>) {
    && (forall h | h in cache :: cache[h].lruIt in list && cache[h].lruIt.host == h)
    && (forall n | n in list :: n.host in cache && cache[n.host].lruIt == n)
  }

  function Erase(list: seq<Node>, n: Node): (rest: seq<Node>)
    ensures forall x | x in rest :: x in list
  {
    if list == [] then []
    else Erase(list[..|list| - 1], n) + (if list[|list| - 1] == n then [] else [list[|list| - 1]])
  }

  /** Erasing through the stored iterator erases the host. */
  lemma {:induction false} EraseHost(list: seq<Node>, cache: map<string, CacheItem>, h: string)
    requires h in cache && cache[h].lruIt.host == h
    requires forall n | n in list :: n.host in cache && cache[n.host].lruIt == n
    ensures Hosts(Erase(list, cache[h].lruIt)) == Without(Hosts(list), h)
    ensures forall n :: n in Erase(list, cache[h].lruIt) <==> n in list && n != cache[h].lruIt
  {
    if list == [] {
    } else {
      var front, last := list[..|list| - 1], list[|list| - 1];
      assert forall n | n in front :: n in list;
      EraseHost(front, cache, h);
      assert list == front + [last];
      assert Hosts(list)[..|list| - 1] == Hosts(front);
      assert last in list;
    }
  }

  lemma ConsNode(n: Node, list: seq<Node>)
    ensures Hosts([n] + list) == [n.host] + Hosts(list)
    ensures forall x :: x in [n] + list <==> x == n || x in list
  {
  }

  lemma RelinkedValid(list: seq<Node>, rest: seq<Node>, cache: map<string, CacheItem>, h: string, n: Node)
    requires IteratorsValid(list, cache) && h in cache && n !in list && n.host == h
    requires forall x :: x in rest <==> x in list && x != cache[h].lruIt
    ensures IteratorsValid([n] + rest, cache[h := cache[h].(lruIt := n)])
    ensures Entries(cache[h := cache[h].(lruIt := n)]) == Entries(cache)
  {
  }

  /** A host relinked at the front through a new node. */
  lemma Relinked(list: seq<Node>, cache: map<string, CacheItem>, h: string, n: Node)
    requires IteratorsValid(list, cache) && h in cache && n !in list && n.host == h
    ensures var list', cache' := [n] + Erase(list, cache[h].lruIt), cache[h := cache[h].(lruIt := n)];
            IteratorsValid(list', cache') && Hosts(list') == [h] + Without(Hosts(list), h)
              && Entries(cache') == Entries(cache)
  {
    EraseHost(list, cache, h);
    ConsNode(n, Erase(list, cache[h].lruIt));
    RelinkedValid(list, Erase(list, cache[h].lruIt), cache, h, n);
    hide *;
  }

  lemma Pushed(list: seq<Node>, cache: map<string, CacheItem>, h: string, e: Entry, n: Node)
    requires IteratorsValid(list, cache) && h !in cache && n !in list && n.host == h
    ensures var list', cache' := [n] + list, cache[h := CacheItem(e, n)];
            IteratorsValid(list', cache') && Hosts(list') == [h] + Hosts(list)
              && Entries(cache') == Entries(cache)[h := e]
  {
    ConsNode(n, list);
    hide Hosts;
  }

  /** Dropping the last node and its host's item is evicting the oldest host. */
  lemma Dropped(list: seq<Node>, cache: map<string, CacheItem>, max: nat)
    ensures var c := Cache(Hosts(list), Entries(cache)); var n := |list| - 1;
            Evicted(c, max) == if max > 0 && |cache| >= max && list != []
                               then Cache(Hosts(list[..n]), Entries(cache - {list[n].host})) else c
  {
    SameKeys(cache);
    if list != [] {
      var n := |list| - 1;
      assert Hosts(list)[n] == list[n].host;
      assert Hosts(list[..n]) == Hosts(list)[..n];
      assert Entries(cache - {list[n].host}) == Entries(cache) - {list[n].host};
    }
    hide Hosts, Entries;
  }

  lemma SameKeys(cache: map<string, CacheItem>)
    ensures Entries(cache).Keys == cache.Keys && |Entries(cache)| == |cache|
  {
    assert Entries(cache).Keys == cache.Keys;
    assert |cache.Keys| == |cache| && |Entries(cache).Keys| == |Entries(cache)|;
  }

  /** The oldest node is the item's of its host and of no other. */
  lemma LastNode(list: seq<Node>, cache: map<string, CacheItem>)
    requires IteratorsValid(list, cache) && Distinct(Hosts(list)) && list != []
    ensures var n := |list| - 1; IteratorsValid(list[..n], cache - {list[n].host})
  {
    var n := |list| - 1;
    var c := cache - {list[n].host};
    assert list[n] in list;
    assert list == list[..n] + [list[n]];
    forall x | x in list[..n] ensures x.host in c && c[x.host].lruIt == x {
      var i: nat :| i < n && list[i] == x;
      assert Hosts(list)[i] != Hosts(list)[n];
      assert x in list;
    }
  }

  lemma EvictedKeys(c: Cache, max: nat)
    ensures Evicted(c, max).items.Keys <= c.items.Keys
  {
  }

  class CertCache {
    const maxEntries: nat
    var lruList: seq<Node>
    var cache: map<string, CacheItem>
    /** Insertions, promotions and clears so far. */
    ghost var log: seq<Use>

    ghost function View(): Cache
      reads this
    {
      Cache(Hosts(lruList), Entries(cache))
    }

    ghost predicate Valid()
      reads this
    {
      IteratorsValid(lruList, cache) && Recent(View(), maxEntries, log)
    }

    constructor (maxEntries: nat)
      ensures Valid() && this.maxEntries == maxEntries && log == [] && View() == Cache([], map[])
    {
      this.maxEntries, lruList, cache, log := maxEntries, [], map[], [];
      new;
      var none: set<string> := set h | h in [];
      assert none == {};
      assert Recency([]) == [];
    }

    method Contains(h: string) returns (r: bool)
      requires Valid()
      ensures r <==> h in View().items
    {
      r := h in cache;
    }

    method Size() returns (n: nat)
      requires Valid()
      ensures n == |View().list|
    {
      n := |cache|;
      DistinctCount(View().list);
      assert cache.Keys == View().items.Keys;
    }

    /** lruList_.erase, push_front, and the iterator stored again. */
    method MoveToFront(h: string)
      requires Valid() && h in cache
      modifies this
      ensures Valid() && View() == Promote(old(View()), h) && log == old(log) + [Used(h)]
    {
      PromoteRecent(View(), maxEntries, log, h);
      var n := new Node(h);
      Relinked(lruList, cache, h, n);
      hide Recent, Hosts, Entries, Erase, Without, IteratorsValid;
      lruList := [n] + Erase(lruList, cache[h].lruIt);
      cache := cache[h := cache[h].(lruIt := n)];
      log := log + [Used(h)];
    }

    method Touch(h: string)
      requires Valid()
      modifies this
      ensures Valid() && View() == Promote(old(View()), h)
      ensures log == old(log) + (if h in old(View()).items then [Used(h)] else [])
    {
      if h in cache { MoveToFront(h); }
    }

    method Clear()
      requires Valid()
      modifies this
      ensures Valid() && View() == Cache([], map[]) && log == old(log) + [Cleared]
    {
      cache := map[];
      lruList := [];
      log := log + [Cleared];
      var none: set<string> := set h | h in [];
      assert none == {};
    }

    /** The lookup under the shared lock. */
    method FastLookup(h: string) returns (r: Option<Entry>)
      requires Valid()
      ensures r == if h in View().items then Some(View().items[h]) else None
    {
      if h in cache { return Some(cache[h].entry); }
      r := None;
    }

    method EvictOldest()
      requires IteratorsValid(lruList, cache) && Distinct(Hosts(lruList))
      modifies this`lruList, this`cache
      ensures IteratorsValid(lruList, cache) && View() == Evicted(old(View()), maxEntries)
    {
      Dropped(lruList, cache, maxEntries);
      if lruList != [] { LastNode(lruList, cache); }
      hide Recent, Hosts, Entries, IteratorsValid, Evicted, Distinct;
      if maxEntries > 0 && |cache| >= maxEntries && lruList != [] {
        var oldest := lruList[|lruList| - 1];
        lruList := lruList[..|lruList| - 1];
        cache := cache - {oldest.host};
      }
    }

    method PushFront(h: string, e: Entry)
      requires IteratorsValid(lruList, cache) && h !in cache
      modifies this`lruList, this`cache
      ensures IteratorsValid(lruList, cache)
      ensures View() == Cache([h] + old(View()).list, old(View()).items[h := e])
    {
      var n := new Node(h);
      Pushed(lruList, cache, h, e, n);
      hide Hosts, Entries, IteratorsValid;
      lruList := [n] + lruList;
      cache := cache[h := CacheItem(e, n)];
    }

    /** The exclusive part: a host another thread has cached meanwhile is promoted;
        else `mint`, the outcome of generating, is cached if it succeeded. */
    method SlowLookup(h: string, mint: Entry) returns (r: Entry)
      requires Valid()
      modifies this
      ensures Valid() && (View(), r) == Minted(old(View()), maxEntries, h, mint)
      ensures log == old(log) + (if h in old(View()).items || !Failed(mint) then [Used(h)] else [])
    {
      if h in cache {
        r := cache[h].entry;
        MoveToFront(h);
        return;
      }
      if Failed(mint) { return Entry(mint.pair, None); }
      SameKeys(cache);
      InsertRecent(View(), maxEntries, log, h, mint);
      hide Recent, Hosts, Entries, IteratorsValid, Evicted;
      EvictOldest();
      SameKeys(cache);
      EvictedKeys(old(View()), maxEntries);
      if maxEntries > 0 { PushFront(h, mint); }
      log := log + [Used(h)];
      r := mint;
    }

    method GetEntry(h: string, mint: Entry) returns (r: Entry)
      requires Valid()
      modifies this
      ensures Valid()
      ensures if h == "" then r == Entry(KeyPair("", ""), None) && View() == old(View()) && log == old(log)
              else if h in old(View()).items then r == old(View()).items[h] && View() == old(View()) && log == old(log)
              else
                && (View(), r) == Minted(old(View()), maxEntries, h, mint)
                && log == old(log) + (if Failed(mint) then [] else [Used(h)])
    {
      if h == "" { return NO_ENTRY; }
      var hit := FastLookup(h);
      if hit.Some? { return hit.value; }
      r := SlowLookup(h, mint);
    }
  }
}
