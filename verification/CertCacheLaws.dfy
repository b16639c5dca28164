/** The certificate cache by list positions, entries and uses: what a lookup answers and
    what it leaves, and what recency is. */
module CertCacheLaws {
  import opened Text
  import opened CertCacheSpec
  import opened CertCacheRuns

  /** Generating gave both halves of the pair. */
  predicate Complete(mint: Entry) {
    mint.pair.certPem != "" && mint.pair.keyPem != ""
  }

  // ------------------------------------------------------------------ recency by uses

  /** The host's last use, and no clear since. */
  ghost predicate LastUse(log: seq<Use>, i: nat, h: string) {
    i < |log| && log[i] == Used(h) && forall j | i < j < |log| :: log[j] != Used(h) && log[j] != Cleared
  }

  lemma LastUseSnoc(log: seq<Use>, u: Use, i: nat, h: string)
    ensures LastUse(log + [u], i, h) <==>
              if u == Used(h) then i == |log| else u != Cleared && LastUse(log, i, h)
  {
    var more := log + [u];
    assert more[|log|] == u;
    if LastUse(log, i, h) && u != Used(h) && u != Cleared {
      forall j | i < j < |more| ensures more[j] != Used(h) && more[j] != Cleared {
        if j < |log| { assert more[j] == log[j]; }
      }
    }
    if LastUse(more, i, h) && i < |log| {
      forall j | i < j < |log| ensures log[j] != Used(h) && log[j] != Cleared { assert more[j] == log[j]; }
    }
  }

  lemma WithoutHas(s: seq<string>, h: string, x: string)
    requires Distinct(s)
    ensures x in Without(s, h) <==> x in s && x != h
  {
    if h in s {
      var i: nat :| i < |s| && s[i] == h;
      WithoutAt(s, i);
      assert s == s[..i] + [h] + s[i + 1..];
      hide Without;
    } else {
      WithoutAbsent(s, h);
    }
  }

  /** A host is listed exactly when it was used since the last clear. */
  lemma {:induction false} ListedWhenUsed(log: seq<Use>, h: string)
    ensures h in Recency(log) <==> exists i: nat :: LastUse(log, i, h)
  {
    if log == [] {
    } else {
      var front, u := log[..|log| - 1], log[|log| - 1];
      assert log == front + [u];
      ListedWhenUsed(front, h);
      RecencyDistinct(front);
      if u.Used? { WithoutHas(Recency(front), u.host, h); }
      forall i: nat ensures LastUse(log, i, h) <==>
          if u == Used(h) then i == |front| else u != Cleared && LastUse(front, i, h) {
        LastUseSnoc(front, u, i, h);
      }
      hide LastUse;
      if u == Used(h) { assert LastUse(log, |front|, h); }
    }
  }

  /** And the listed hosts are in the order of their last uses, the latest first. */
  lemma {:induction false} ListedLatestFirst(log: seq<Use>, p: nat, q: nat, i: nat, j: nat)
    requires p < q < |Recency(log)| && LastUse(log, i, Recency(log)[p]) && LastUse(log, j, Recency(log)[q])
    ensures i > j
  {
    var front, u := log[..|log| - 1], log[|log| - 1];
    assert log == front + [u];
    var r, s := Recency(log), Recency(front);
    RecencyDistinct(log);
    RecencyDistinct(front);
    LastUseSnoc(front, u, i, r[p]);
    LastUseSnoc(front, u, j, r[q]);
    assert r[p] != r[q] && r[0] == u.host;
    if p > 0 {
      assert r[0] != r[p] && r[0] != r[q];
      var t := Without(s, u.host);
      assert r == [u.host] + t;
      var a, b := InWithout(s, u.host, p - 1, q - 1);
      assert s[a] == r[p] && s[b] == r[q];
      ListedLatestFirst(front, a, b, i, j);
    }
  }

  /** Two of the others keep their order. */
  lemma InWithout(s: seq<string>, h: string, p: nat, q: nat) returns (a: nat, b: nat)
    requires Distinct(s) && p < q < |Without(s, h)|
    ensures a < b < |s| && s[a] == Without(s, h)[p] && s[b] == Without(s, h)[q]
  {
    if h in s {
      var i: nat :| i < |s| && s[i] == h;
      WithoutAt(s, i);
      a, b := if p < i then p else p + 1, if q < i then q else q + 1;
      hide Without;
    } else {
      WithoutAbsent(s, h);
      a, b := p, q;
    }
  }

  // ------------------------------------------------------------------ what a step does

  /** The shared part answers an empty host with nothing and a resident one with its
      entry; on a miss the thread goes on to the exclusive part.  Nothing moves. */
  lemma LookupMeans(max: nat, s: State, th: nat, h: string)
    requires th !in s.waiting
    ensures var s' := Step(max, s, Lookup(th, h));
            && s'.cache == s.cache && s'.log == s.log && s'.generated == s.generated
            && (h == "" ==>
                  s'.answers == s.answers + [Answer(h, Entry(KeyPair("", ""), None))] && s'.waiting == s.waiting)
            && (h != "" && h in s.cache.items ==>
                  s'.answers == s.answers + [Answer(h, s.cache.items[h])] && s'.waiting == s.waiting)
            && (h != "" && h !in s.cache.items ==> s'.answers == s.answers && s'.waiting == s.waiting[th := h])
  {
  }

  /** A resident host leaves its place for the front; the others stay in order. */
  lemma Fronted(c: Cache, max: nat, h: string, i: nat)
    requires Wellformed(c, max) && i < |c.list| && c.list[i] == h
    ensures Promote(c, h) == Cache([h] + c.list[..i] + c.list[i + 1..], c.items)
  {
    assert h in c.list && h in c.items.Keys;
    WithoutAt(c.list, i);
    assert [h] + (c.list[..i] + c.list[i + 1..]) == [h] + c.list[..i] + c.list[i + 1..];
  }

  /** A new host goes to the front; the last of a full cache goes. */
  lemma Added(c: Cache, max: nat, h: string, e: Entry)
    requires Wellformed(c, max)
    ensures Inserted(c, max, h, e) ==
              if max == 0 then c
              else if |c.list| < max then Cache([h] + c.list, c.items[h := e])
              else Cache([h] + c.list[..max - 1], (c.items - {c.list[max - 1]})[h := e])
  {
    DistinctCount(c.list);
    assert |c.items.Keys| == |c.items|;
    hide Distinct;
  }

  /** The exclusive part of a lookup. */
  lemma FinishMeans(max: nat, s: State, th: nat, mint: Entry)
    requires th in s.waiting && Wellformed(s.cache, max)
    ensures var h, c, s' := s.waiting[th], s.cache, Step(max, s, Finish(th, mint)); var n := |c.list|;
            && s'.waiting == s.waiting - {th}
            && (h in c.items ==>
                  && (forall i | 0 <= i < n && c.list[i] == h ::
                        s'.cache == Cache([h] + c.list[..i] + c.list[i + 1..], c.items))
                  && s'.log == s.log + [Used(h)] && s'.generated == s.generated
                  && s'.answers == s.answers + [Answer(h, c.items[h])])
            && (h !in c.items ==> s'.generated == s.generated + [h])
            && (h !in c.items && !Complete(mint) ==>
                  && s'.cache == c && s'.log == s.log
                  && s'.answers == s.answers + [Answer(h, Entry(mint.pair, None))])
            && (h !in c.items && Complete(mint) ==>
                  && s'.log == s.log + [Used(h)] && s'.answers == s.answers + [Answer(h, mint)]
                  && (max == 0 ==> s'.cache == c)
                  && (n < max ==> s'.cache == Cache([h] + c.list, c.items[h := mint]))
                  && (n == max > 0 ==>
                        s'.cache == Cache([h] + c.list[..n - 1], (c.items - {c.list[n - 1]})[h := mint])))
  {
    var h, c := s.waiting[th], s.cache;
    if h in c.items {
      forall i | 0 <= i < |c.list| && c.list[i] == h
        ensures Promote(c, h) == Cache([h] + c.list[..i] + c.list[i + 1..], c.items) { Fronted(c, max, h, i); }
    }
    Added(c, max, h, mint);
    hide Inserted, Promote, Wellformed;
  }

  lemma TouchMeans(max: nat, s: State, h: string)
    requires Wellformed(s.cache, max)
    ensures var c, s' := s.cache, Step(max, s, Touch(h));
            && (h !in c.items ==> s' == s)
            && (h in c.items ==>
                  && (forall i | 0 <= i < |c.list| && c.list[i] == h ::
                        s'.cache == Cache([h] + c.list[..i] + c.list[i + 1..], c.items))
                  && s' == s.(cache := s'.cache, log := s.log + [Used(h)]))
  {
    var c := s.cache;
    if h in c.items {
      forall i | 0 <= i < |c.list| && c.list[i] == h
        ensures Promote(c, h) == Cache([h] + c.list[..i] + c.list[i + 1..], c.items) { Fronted(c, max, h, i); }
    }
    hide Promote, Wellformed;
  }
}
