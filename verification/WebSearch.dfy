/**
 The search over the web of publishers (src/node.ts:1305-1347): breadth first along endorsements, bounded by depth,
 publishers, results and a deadline.
 */
module WebSearch {
  type Pk = string

  const MAX_RESULTS: nat := 1000

  /** An entry, its name lower-cased as the search compares it. */
  datatype Entry = Entry(name: string, lower: string, ih: string)
  datatype Catalog = Catalog(entries: seq<Entry>, endorse: seq<Pk>)
  datatype Hit = Hit(entry: Entry, pk: Pk, hops: nat)

  /** What loading each publisher's catalog gives: nothing for one that is missing, malformed or too slow. */
  type Web = map<Pk, Catalog>

  function Load(web: Web, pk: Pk): Catalog {
    if pk in web then web[pk] else Catalog([], [])
  }

  predicate At(s: string, t: string, i: nat) { i + |t| <= |s| && s[i..i + |t|] == t }

  predicate Contains(s: string, t: string) {
    exists i :: 0 <= i <= |s| && At(s, t, i)
  }

  // ---- distance ---------------------------------------------------------------------------------------------

  function Endorsed(web: Web, from: set<Pk>): set<Pk> {
    set p, e | p in from && p in web && e in web[p].endorse :: e
  }

  /** Publishers at most n endorsements from the follow list, in the graph without self. */
  function Within(web: Web, self: Pk, follows: seq<Pk>, n: int): set<Pk> {
    if n < 0 then {}
    else if n == 0 then (set p | p in follows) - {self}
    else Within(web, self, follows, n - 1) + Endorsed(web, Within(web, self, follows, n - 1)) - {self}
  }

  /** n is the exact distance of p. */
  predicate Distance(web: Web, self: Pk, follows: seq<Pk>, p: Pk, n: int) {
    p in Within(web, self, follows, n) && p !in Within(web, self, follows, n - 1)
  }

  lemma {:induction false} WithinGrows(web: Web, self: Pk, follows: seq<Pk>, m: int, n: int)
    requires m <= n
    ensures Within(web, self, follows, m) <= Within(web, self, follows, n)
    ensures self !in Within(web, self, follows, n)
    decreases if n < 0 then 0 else n
  {
    if 0 < n && m < n {
      WithinGrows(web, self, follows, m, n - 1);
    }
  }

  /** The distance is unique: it is the shortest. */
  lemma DistanceIsShortest(web: Web, self: Pk, follows: seq<Pk>, p: Pk, n: int, m: int)
    requires Distance(web, self, follows, p, n) && p in Within(web, self, follows, m)
    ensures n <= m
  {
    if m < n { WithinGrows(web, self, follows, m, n - 1); }
  }

  predicate Endorses(web: Web, p: Pk, q: Pk) { p in web && q in web[p].endorse }

  /** A path of endorsements from a followed publisher, never through self. */
  predicate Path(web: Web, self: Pk, follows: seq<Pk>, path: seq<Pk>) {
    && path != [] && path[|path| - 1] != self
    && if |path| == 1 then path[0] in follows
       else Endorses(web, path[|path| - 2], path[|path| - 1]) && Path(web, self, follows, path[..|path| - 1])
  }

  /** Within n means: reached by a path of at most n endorsements. */
  lemma {:induction false} WithinIsPath(web: Web, self: Pk, follows: seq<Pk>, n: nat, p: Pk) returns (path: seq<Pk>)
    requires p in Within(web, self, follows, n)
    ensures Path(web, self, follows, path) && path[|path| - 1] == p && |path| <= n + 1
  {
    if n == 0 {
      path := [p];
    } else if p in Within(web, self, follows, n - 1) {
      path := WithinIsPath(web, self, follows, n - 1, p);
    } else {
      assert p in Endorsed(web, Within(web, self, follows, n - 1));
      var q :| q in Within(web, self, follows, n - 1) && q in web && p in web[q].endorse;
      var head := WithinIsPath(web, self, follows, n - 1, q);
      path := head + [p];
      assert path[..|path| - 1] == head;
    }
  }

  lemma {:induction false} PathIsWithin(web: Web, self: Pk, follows: seq<Pk>, path: seq<Pk>)
    requires Path(web, self, follows, path)
    ensures path[|path| - 1] in Within(web, self, follows, |path| - 1)
  {
    if |path| > 1 {
      PathIsWithin(web, self, follows, path[..|path| - 1]);
    }
  }

  // ---- collecting hits ----------------------------------------------------------------------------------------

  /** Hits are distinct by publisher and infohash, and `seen` is exactly their keys. */
  predicate Keyed(hits: seq<Hit>, seen: set<(Pk, string)>) {
    && (forall i :: 0 <= i < |hits| ==> (hits[i].pk, hits[i].entry.ih) in seen)
    && (forall k :: k in seen ==> exists i :: 0 <= i < |hits| && (hits[i].pk, hits[i].entry.ih) == k)
    && (forall i, j :: 0 <= i < j < |hits| ==> (hits[i].pk, hits[i].entry.ih) != (hits[j].pk, hits[j].entry.ih))
  }

  /** A hit comes from its publisher's catalog, matches, and carries the publisher's distance. */
  predicate Genuine(web: Web, self: Pk, follows: seq<Pk>, needle: string, h: Hit) {
    h.entry in Load(web, h.pk).entries && Contains(h.entry.lower, needle) && Distance(web, self, follows, h.pk, h.hops)
  }

  /** Every matching entry of the catalog has been seen. */
  predicate Covered(web: Web, needle: string, pk: Pk, seen: set<(Pk, string)>) {
    forall e :: e in Load(web, pk).entries && Contains(e.lower, needle) ==> (pk, e.ih) in seen
  }

  /** The entry at position p, the first match with its infohash. */
  predicate HitAt(entries: seq<Entry>, needle: string, p: nat, h: Hit) {
    && p < |entries| && entries[p] == h.entry && Contains(h.entry.lower, needle)
    && forall l :: 0 <= l < p && Contains(entries[l].lower, needle) ==> entries[l].ih != h.entry.ih
  }

  /** These hits are such entries, in the order of the catalog. */
  predicate InPlace(entries: seq<Entry>, needle: string, pos: seq<nat>, hits: seq<Hit>) {
    && |pos| == |hits|
    && (forall i, j :: 0 <= i < j < |pos| ==> pos[i] < pos[j])
    && forall i :: 0 <= i < |hits| ==> HitAt(entries, needle, pos[i], hits[i])
  }

  lemma InPlaceAdd(entries: seq<Entry>, needle: string, pos: seq<nat>, out0: seq<Hit>, out: seq<Hit>, k: nat, h: Hit)
    requires out0 <= out && InPlace(entries, needle, pos, out[|out0|..]) && HitAt(entries, needle, k, h)
    requires forall i :: 0 <= i < |pos| ==> pos[i] < k
    ensures out0 <= out + [h] && InPlace(entries, needle, pos + [k], (out + [h])[|out0|..])
  {
    hide HitAt;
    assert (out + [h])[|out0|..] == out[|out0|..] + [h];
  }

  method Collect(web: Web, pk: Pk, hops: nat, needle: string, out0: seq<Hit>, seen0: set<(Pk, string)>)
    returns (out: seq<Hit>, seen: set<(Pk, string)>, full: bool)
    requires Keyed(out0, seen0) && |out0| <= MAX_RESULTS
    ensures Keyed(out, seen) && |out| <= MAX_RESULTS
    ensures out0 <= out && seen0 <= seen
    ensures forall i :: |out0| <= i < |out| ==>
      out[i].pk == pk && out[i].hops == hops && out[i].entry in Load(web, pk).entries
        && Contains(out[i].entry.lower, needle)
    ensures !full ==> Covered(web, needle, pk, seen)
    ensures full ==> |out| == MAX_RESULTS
    ensures exists pos :: InPlace(Load(web, pk).entries, needle, pos, out[|out0|..])
  {
    hide InPlace, Keyed;
    out, seen := out0, seen0;
    var entries := Load(web, pk).entries;
    ghost var pos: seq<nat> := [];
    assert out[|out0|..] == [];
    NoHits(entries, needle);
    for k := 0 to |entries|
      invariant Keyed(out, seen) && |out| <= MAX_RESULTS && out0 <= out && seen0 <= seen
      invariant forall i :: |out0| <= i < |out| ==>
        out[i].pk == pk && out[i].hops == hops && out[i].entry in entries && Contains(out[i].entry.lower, needle)
      invariant forall j :: 0 <= j < k && Contains(entries[j].lower, needle) ==> (pk, entries[j].ih) in seen
      invariant InPlace(entries, needle, pos, out[|out0|..]) && forall i :: 0 <= i < |pos| ==> pos[i] < k
    {
      if |out| >= MAX_RESULTS { return out, seen, true; }
      var e := entries[k];
      if (pk, e.ih) in seen || !Contains(e.lower, needle) { continue; }
      KeyedAdd(out, seen, Hit(e, pk, hops));
      InPlaceAdd(entries, needle, pos, out0, out, k, Hit(e, pk, hops));
      pos := pos + [k];
      seen := seen + {(pk, e.ih)};
      out := out + [Hit(e, pk, hops)];
    }
    full := false;
  }

  lemma NoHits(entries: seq<Entry>, needle: string)
    ensures InPlace(entries, needle, [], [])
  {}

  lemma KeyedAdd(hits: seq<Hit>, seen: set<(Pk, string)>, h: Hit)
    requires Keyed(hits, seen) && (h.pk, h.entry.ih) !in seen
    ensures Keyed(hits + [h], seen + {(h.pk, h.entry.ih)})
  {
    var hits', seen' := hits + [h], seen + {(h.pk, h.entry.ih)};
    forall k | k in seen' ensures exists i :: 0 <= i < |hits'| && (hits'[i].pk, hits'[i].entry.ih) == k {
      if k in seen {
        var i :| 0 <= i < |hits| && (hits[i].pk, hits[i].entry.ih) == k;
        assert hits'[i] == hits[i];
      } else {
        assert hits'[|hits|] == h;
      }
    }
  }

  // ---- widening ------------------------------------------------------------------------------------------------

  function Elements(s: seq<Pk>): set<Pk> { set p | p in s }

  predicate NoRepeats(s: seq<Pk>) {
    forall i, j :: 0 <= i < j < |s| ==> s[i] != s[j]
  }

  /** The first n candidates have been queued, and nobody else. */
  predicate Taken(candidates: seq<Pk>, n: nat, queued0: set<Pk>, queued: set<Pk>) {
    n <= |candidates| && queued == queued0 + Elements(candidates[..n])
  }

  /** p stands in the list before any q does. */
  predicate Ahead(candidates: seq<Pk>, p: Pk, q: Pk) {
    exists i :: 0 <= i < |candidates| && candidates[i] == p && q !in candidates[..i]
  }

  /** In the order of the list. */
  predicate InOrder(candidates: seq<Pk>, added: seq<Pk>) {
    forall i, j :: 0 <= i < j < |added| ==> Ahead(candidates, added[i], added[j])
  }

  lemma InOrderAdd(candidates: seq<Pk>, added: seq<Pk>, k: nat)
    requires InOrder(candidates, added) && k < |candidates| && candidates[k] !in candidates[..k]
    requires forall p :: p in added ==> p in candidates[..k]
    ensures InOrder(candidates, added + [candidates[k]])
  {
    var more := added + [candidates[k]];
    forall i, j | 0 <= i < j < |more| ensures Ahead(candidates, more[i], more[j]) {
      if j == |added| {
        assert more[i] in added;
        var p :| 0 <= p < k && candidates[..k][p] == more[i];
        assert candidates[..p] == candidates[..k][..p];
        assert candidates[p] == more[i] && candidates[k] !in candidates[..p];
      }
    }
  }

  /** The first n candidates have been queued, nobody else, and the new ones follow each other as in the list. */
  predicate Filled(candidates: seq<Pk>, n: nat, queued0: set<Pk>, next0: seq<Pk>, queued: set<Pk>, next: seq<Pk>) {
    && Taken(candidates, n, queued0, queued)
    && next0 <= next
    && InOrder(candidates, next[|next0|..])
    && forall p :: p in next[|next0|..] ==> p in candidates[..n]
  }

  lemma FilledNone(candidates: seq<Pk>, queued0: set<Pk>, next0: seq<Pk>)
    ensures Filled(candidates, 0, queued0, next0, queued0, next0)
  {}

  lemma FilledSkip(candidates: seq<Pk>, n: nat, queued0: set<Pk>, next0: seq<Pk>, queued: set<Pk>, next: seq<Pk>)
    requires n < |candidates| && Filled(candidates, n, queued0, next0, queued, next) && candidates[n] in queued
    ensures Filled(candidates, n + 1, queued0, next0, queued, next)
  {
    assert candidates[..n + 1] == candidates[..n] + [candidates[n]];
  }

  lemma FilledAdd(candidates: seq<Pk>, n: nat, queued0: set<Pk>, next0: seq<Pk>, queued: set<Pk>, next: seq<Pk>)
    requires n < |candidates| && Filled(candidates, n, queued0, next0, queued, next) && candidates[n] !in queued
    ensures Filled(candidates, n + 1, queued0, next0, queued + {candidates[n]}, next + [candidates[n]])
  {
    var p := candidates[n];
    assert candidates[..n + 1] == candidates[..n] + [p];
    assert p !in Elements(candidates[..n]);
    InOrderAdd(candidates, next[|next0|..], n);
    assert (next + [p])[|next0|..] == next[|next0|..] + [p];
  }

  /**
   Publishers of `candidates` not queued before are queued, while the budget lasts: a beginning of the list, all of it
   unless the budget ran out, in the order of the list.
   */
  method Enqueue(candidates: seq<Pk>, maxPublishers: nat, queued0: set<Pk>, next0: seq<Pk>)
    returns (queued: set<Pk>, next: seq<Pk>)
    requires |queued0| <= maxPublishers + 1 && NoRepeats(next0) && Elements(next0) <= queued0
    ensures queued0 <= queued && |queued0| <= |queued| <= maxPublishers + 1 && (queued != queued0 ==>
      |queued0| <= maxPublishers)
    ensures next0 <= next && NoRepeats(next) && Elements(next) == Elements(next0) + (queued - queued0)
    ensures queued <= queued0 + Elements(candidates)
    ensures |queued| <= maxPublishers ==> Elements(candidates) <= queued
    ensures exists n ::
      Filled(candidates, n, queued0, next0, queued, next) && (n == |candidates| || |queued| == maxPublishers + 1)
  {
    hide Filled;
    FilledNone(candidates, queued0, next0);
    queued, next := queued0, next0;
    ghost var n := 0;
    for k := 0 to |candidates|
      invariant n == k && Filled(candidates, n, queued0, next0, queued, next)
      invariant queued0 <= queued <= queued0 + Elements(candidates) && |queued| <= maxPublishers + 1
      invariant |queued0| <= |queued| && (queued != queued0 ==> |queued0| <= maxPublishers)
      invariant next0 <= next && NoRepeats(next) && Elements(next) == Elements(next0) + (queued - queued0)
      invariant |queued| <= maxPublishers ==> forall j :: 0 <= j < k ==> candidates[j] in queued
    {
      if |queued| >= maxPublishers + 1 { break; }
      var p := candidates[k];
      n := k + 1;
      if p in queued {
        FilledSkip(candidates, k, queued0, next0, queued, next);
        continue;
      }
      FilledAdd(candidates, k, queued0, next0, queued, next);
      assert p !in Elements(next);
      queued := queued + {p};
      next := next + [p];
    }
  }

  // ---- the walk --------------------------------------------------------------------------------------------------

  /** The endorsements of these publishers. */
  predicate AllQueued(web: Web, done: seq<Pk>, queued: set<Pk>) {
    forall p :: p in done ==> Elements(Load(web, p).endorse) <= queued
  }

  /** Where level h starts: the frontier is at distance h, and while the budget lasts nothing within h is missing. */
  ghost predicate Level(web: Web, self: Pk, follows: seq<Pk>, h: nat, maxPublishers: nat, queued: set<Pk>,
                        frontier: seq<Pk>) {
    && self in queued && |queued| <= maxPublishers + 1
    && NoRepeats(frontier) && Elements(frontier) <= queued
    && (forall p :: p in frontier ==> Distance(web, self, follows, p, h))
    && queued - {self} <= Within(web, self, follows, h)
    && (|queued| <= maxPublishers ==>
          Within(web, self, follows, h) <= queued
            && Within(web, self, follows, h) - Within(web, self, follows, h - 1) <= Elements(frontier))
  }

  /** One publisher of level h widened to the next. */
  lemma WidenOne(web: Web, self: Pk, follows: seq<Pk>, h: nat, pk: Pk, queued: set<Pk>, queued': set<Pk>,
                 maxPublishers: nat)
    requires Distance(web, self, follows, pk, h) && self in queued && queued <= queued'
    requires queued' <= queued + Elements(Load(web, pk).endorse) && (queued' != queued ==> |queued| <= maxPublishers)
    requires |queued| <= maxPublishers ==> Within(web, self, follows, h) <= queued
    ensures forall p :: p in queued' - queued ==> Distance(web, self, follows, p, h + 1)
  {
    forall p | p in queued' - queued ensures Distance(web, self, follows, p, h + 1) {
      assert pk in web && p in web[pk].endorse;
      assert p in Endorsed(web, Within(web, self, follows, h));
    }
  }

  /** A level fully widened within the budget is the next level's start. */
  lemma NextLevel(web: Web, self: Pk, follows: seq<Pk>, h: nat, maxPublishers: nat, queued: set<Pk>, frontier: seq<Pk>,
                  queued': set<Pk>, next: seq<Pk>)
    requires Level(web, self, follows, h, maxPublishers, queued, frontier)
    requires queued <= queued' && |queued| <= |queued'| <= maxPublishers + 1 && NoRepeats(next)
      && Elements(next) == queued' - queued
    requires forall p :: p in next ==> Distance(web, self, follows, p, h + 1)
    requires |queued'| <= maxPublishers ==> AllQueued(web, frontier, queued')
    ensures Level(web, self, follows, h + 1, maxPublishers, queued', next)
  {
    var now := Within(web, self, follows, h);
    WithinGrows(web, self, follows, h, h + 1);
    assert forall p :: p in next ==> p in Elements(next);
    assert forall p :: p in queued' - queued ==> p in Elements(next);
    if |queued'| <= maxPublishers {
      forall e | e in Endorsed(web, now) && e != self ensures e in queued' {
        var p :| p in now && p in web && e in web[p].endorse;
        if p in Within(web, self, follows, h - 1) {
          assert h > 0;
          assert e in Endorsed(web, Within(web, self, follows, h - 1));
          assert e in now;
        } else {
          assert p in now - Within(web, self, follows, h - 1);
          assert p in Elements(frontier);
          assert e in Elements(Load(web, p).endorse);
        }
      }
    }
    var later := Within(web, self, follows, h + 1);
    assert forall p :: p in next ==> p in queued';
    assert Elements(next) <= queued';
    assert queued' - {self} <= later by {
      forall p | p in queued' - {self} ensures p in later {
        if p !in queued { assert p in Elements(next); }
      }
    }
    if |queued'| <= maxPublishers {
      assert later == now + Endorsed(web, now) - {self};
      assert later <= queued';
      assert later - now <= Elements(next);
    }
  }

  /** A level with an empty frontier is the last: everything within any distance has been queued. */
  lemma {:induction false} Closed(web: Web, self: Pk, follows: seq<Pk>, h: nat, n: nat)
    requires Within(web, self, follows, h) <= Within(web, self, follows, h - 1)
    ensures Within(web, self, follows, n) <= Within(web, self, follows, h)
    decreases n
  {
    WithinGrows(web, self, follows, h - 1, h);
    if n <= h {
      WithinGrows(web, self, follows, n, h);
    } else {
      Closed(web, self, follows, h, n - 1);
      assert Endorsed(web, Within(web, self, follows, n - 1)) <= Endorsed(web, Within(web, self, follows, h));
      if h > 0 {
        var before := Within(web, self, follows, h - 1);
        assert Within(web, self, follows, h) == before + Endorsed(web, before) - {self};
      }
    }
  }

  predicate AllGenuine(web: Web, self: Pk, follows: seq<Pk>, needle: string, out: seq<Hit>) {
    forall i :: 0 <= i < |out| ==> Genuine(web, self, follows, needle, out[i])
  }

  predicate AllCovered(web: Web, needle: string, done: seq<Pk>, seen: set<(Pk, string)>) {
    forall p :: p in done ==> Covered(web, needle, p, seen)
  }

  /** The hits so far. */
  predicate Collected(web: Web, self: Pk, follows: seq<Pk>, needle: string, out: seq<Hit>, seen: set<(Pk, string)>) {
    Keyed(out, seen) && |out| <= MAX_RESULTS && AllGenuine(web, self, follows, needle, out)
  }

  /** Between two levels: `next` is what has been queued since, all of it at distance h + 1. */
  predicate Widened(web: Web, self: Pk, follows: seq<Pk>, h: nat, maxPublishers: nat, queued0: set<Pk>,
                    queued: set<Pk>, next: seq<Pk>) {
    && queued0 <= queued && |queued0| <= |queued| <= maxPublishers + 1
    && NoRepeats(next) && Elements(next) == queued - queued0
    && (next != [] ==> |queued0| <= maxPublishers)
    && forall p :: p in next ==> Distance(web, self, follows, p, h + 1)
  }

  /** Every hit comes from a publisher that has been loaded. */
  predicate FromLoaded(out: seq<Hit>, loaded: seq<Pk>) {
    forall i :: 0 <= i < |out| ==> out[i].pk in loaded
  }

  /**
   Every publisher loaded has had its matches collected, except that the last one may have been cut by the result
   limit.
   */
  predicate AllButLast(web: Web, needle: string, out: seq<Hit>, seen: set<(Pk, string)>, loaded: seq<Pk>) {
    && (loaded != [] ==> AllCovered(web, needle, loaded[..|loaded| - 1], seen))
    && (|out| < MAX_RESULTS ==> AllCovered(web, needle, loaded, seen))
  }

  method VisitOne(web: Web, self: Pk, follows: seq<Pk>, needle: string, hops: nat, pk: Pk, out0: seq<Hit>,
                  seen0: set<(Pk, string)>)
    returns (out: seq<Hit>, seen: set<(Pk, string)>, full: bool)
    requires Collected(web, self, follows, needle, out0, seen0) && Distance(web, self, follows, pk, hops)
    ensures Collected(web, self, follows, needle, out, seen) && seen0 <= seen && out0 <= out
    ensures forall i :: |out0| <= i < |out| ==> out[i].pk == pk
    ensures if full then |out| == MAX_RESULTS else Covered(web, needle, pk, seen)
  {
    hide Keyed, Covered, Distance, Contains;
    out, seen, full := Collect(web, pk, hops, needle, out0, seen0);
    forall i | 0 <= i < |out| ensures Genuine(web, self, follows, needle, out[i]) {
      if i < |out0| { assert out[i] == out0[i]; }
    }
  }

  method WidenBy(web: Web, self: Pk, follows: seq<Pk>, maxPublishers: nat, h: nat, pk: Pk, ghost frontier: seq<Pk>,
                 ghost queued0: set<Pk>, was: set<Pk>, next0: seq<Pk>)
    returns (queued: set<Pk>, next: seq<Pk>)
    requires Level(web, self, follows, h, maxPublishers, queued0, frontier) && pk in frontier
    requires Widened(web, self, follows, h, maxPublishers, queued0, was, next0)
    ensures Widened(web, self, follows, h, maxPublishers, queued0, queued, next) && was <= queued && |was| <= |queued|
    ensures |queued| <= maxPublishers ==> Elements(Load(web, pk).endorse) <= queued
  {
    hide Distance, Within;
    queued, next := Enqueue(Load(web, pk).endorse, maxPublishers, was, next0);
    hide Elements, NoRepeats;
    WidenFacts(web, self, follows, h, pk, queued0, was, next0, queued, next, maxPublishers, frontier);
  }

  lemma WidenFacts(web: Web, self: Pk, follows: seq<Pk>, h: nat, pk: Pk, queued0: set<Pk>, was: set<Pk>, next0: seq<Pk>,
                   queued: set<Pk>, next: seq<Pk>, maxPublishers: nat, frontier: seq<Pk>)
    requires Level(web, self, follows, h, maxPublishers, queued0, frontier) && pk in frontier
    requires Widened(web, self, follows, h, maxPublishers, queued0, was, next0)
    requires was <= queued <= was + Elements(Load(web, pk).endorse) && |was| <= |queued| <= maxPublishers + 1
    requires queued != was ==> |was| <= maxPublishers
    requires NoRepeats(next) && Elements(next) == Elements(next0) + (queued - was)
    ensures Widened(web, self, follows, h, maxPublishers, queued0, queued, next)
  {
    hide NoRepeats, Distance, Within, Load;
    WidenOne(web, self, follows, h, pk, was, queued, maxPublishers);
    assert Elements(next) == queued - queued0;
    if next != [] && queued == was {
      assert next[0] in Elements(next0);
    }
    forall p | p in next ensures Distance(web, self, follows, p, h + 1) {
      assert p in Elements(next);
      if p in Elements(next0) { assert p in next0; }
    }
  }

  lemma CoverMore(web: Web, needle: string, done: seq<Pk>, pk: Pk, seen: set<(Pk, string)>, seen': set<(Pk, string)>)
    requires AllCovered(web, needle, done, seen) && seen <= seen' && Covered(web, needle, pk, seen')
    ensures AllCovered(web, needle, done + [pk], seen')
  {
    forall p | p in done ensures Covered(web, needle, p, seen') {
      assert Covered(web, needle, p, seen);
    }
  }

  lemma QueueMore(web: Web, done: seq<Pk>, pk: Pk, queued: set<Pk>, queued': set<Pk>)
    requires AllQueued(web, done, queued) && queued <= queued' && Elements(Load(web, pk).endorse) <= queued'
    ensures AllQueued(web, done + [pk], queued')
  {}

  lemma LoadMore(out: seq<Hit>, out': seq<Hit>, loaded: seq<Pk>, pk: Pk)
    requires FromLoaded(out, loaded) && out <= out' && forall i :: |out| <= i < |out'| ==> out'[i].pk == pk
    ensures FromLoaded(out', loaded + [pk])
  {
    forall i | 0 <= i < |out'| ensures out'[i].pk in loaded + [pk] {
      if i < |out| { assert out'[i] == out[i]; }
    }
  }

  lemma LastCut(web: Web, needle: string, out: seq<Hit>, seen: set<(Pk, string)>, done: seq<Pk>, pk: Pk)
    requires AllCovered(web, needle, done, seen) && |out| == MAX_RESULTS
    ensures AllButLast(web, needle, out, seen, done + [pk])
  {
    assert (done + [pk])[..|done + [pk]| - 1] == done;
  }

  lemma NoneCut(web: Web, needle: string, out: seq<Hit>, seen: set<(Pk, string)>, done: seq<Pk>)
    requires AllCovered(web, needle, done, seen)
    ensures AllButLast(web, needle, out, seen, done)
  {
    if done != [] {
      forall p | p in done[..|done| - 1] ensures Covered(web, needle, p, seen) {
        assert p in done;
      }
    }
  }

  lemma CoverSame(web: Web, needle: string, done: seq<Pk>, seen: set<(Pk, string)>, seen': set<(Pk, string)>)
    requires AllCovered(web, needle, done, seen) && seen <= seen'
    ensures AllCovered(web, needle, done, seen')
  {
    forall p | p in done ensures Covered(web, needle, p, seen') {
      assert Covered(web, needle, p, seen);
    }
  }

  /**
   One level: load each publisher of the frontier, collect its hits, widen unless this is the last level.  `before` is
   what earlier levels loaded, `loaded` what this one loads.
   */
  method VisitLevel(web: Web, self: Pk, follows: seq<Pk>, needle: string, depth: nat, maxPublishers: nat, hops: nat,
                    frontier: seq<Pk>, queued0: set<Pk>, out0: seq<Hit>, seen0: set<(Pk, string)>, loads0: nat,
                      ghost before: seq<Pk>)
    returns (queued: set<Pk>, next: seq<Pk>, out: seq<Hit>, seen: set<(Pk, string)>, loads: nat, stop: bool,
      ghost loaded: seq<Pk>)
    requires Level(web, self, follows, hops, maxPublishers, queued0, frontier)
    requires Collected(web, self, follows, needle, out0, seen0)
    requires FromLoaded(out0, before) && AllCovered(web, needle, before, seen0)
    ensures Collected(web, self, follows, needle, out, seen) && seen0 <= seen
    ensures loaded <= frontier && loads == loads0 - |loaded|
    ensures FromLoaded(out, before + loaded) && AllButLast(web, needle, out, seen, before + loaded)
    ensures Widened(web, self, follows, hops, maxPublishers, queued0, queued, next)
    ensures stop ==> loads == 0 || |out| == MAX_RESULTS
    ensures !stop ==> loaded == frontier && AllCovered(web, needle, before + loaded, seen)
    ensures !stop && hops != depth ==> Level(web, self, follows, hops + 1, maxPublishers, queued, next)
    ensures hops == depth ==> next == [] && queued == queued0
  {
    queued, next, out, seen, loads, loaded := queued0, [], out0, seen0, loads0, [];
    assert Widened(web, self, follows, hops, maxPublishers, queued0, queued, next);
    hide Level, Collected, Widened, Covered, AllCovered, AllQueued, Distance, FromLoaded, AllButLast;
    assert AllQueued(web, [], queued) by { NoneDone(web, needle, seen, queued); }
    assert before + [] == before;
    for k := 0 to |frontier|
      invariant Collected(web, self, follows, needle, out, seen) && seen0 <= seen
      invariant loaded == frontier[..k] && loads == loads0 - k
      invariant Widened(web, self, follows, hops, maxPublishers, queued0, queued, next)
      invariant AllCovered(web, needle, before + loaded, seen) && FromLoaded(out, before + loaded)
      invariant hops != depth && |queued| <= maxPublishers ==> AllQueued(web, loaded, queued)
      invariant hops == depth ==> next == [] && queued == queued0
    {
      var pk := frontier[k];
      assert frontier[..k + 1] == frontier[..k] + [pk];
      if loads == 0 {
        NoneCut(web, needle, out, seen, before + loaded);
        return queued, next, out, seen, loads, true, loaded;
      }
      loads := loads - 1;
      ghost var had, was, done := seen, out, loaded;
      loaded := loaded + [pk];
      assert before + loaded == (before + done) + [pk];
      var full;
      AtLevel(web, self, follows, hops, maxPublishers, queued0, frontier, pk);
      out, seen, full := VisitOne(web, self, follows, needle, hops, pk, out, seen);
      LoadMore(was, out, before + done, pk);
      if full {
        HitCount(web, self, follows, needle, out, seen);
        CoverSame(web, needle, before + done, had, seen);
        LastCut(web, needle, out, seen, before + done, pk);
        return queued, next, out, seen, loads, true, loaded;
      }
      CoverMore(web, needle, before + done, pk, had, seen);
      if hops == depth { continue; }
      ghost var held := queued;
      queued, next := WidenBy(web, self, follows, maxPublishers, hops, pk, frontier, queued0, queued, next);
      if |queued| <= maxPublishers { QueueMore(web, done, pk, held, queued); }
    }
    assert frontier[..|frontier|] == frontier;
    NoneCut(web, needle, out, seen, before + loaded);
    stop := false;
    if hops != depth {
      EndLevel(web, self, follows, hops, maxPublishers, queued0, frontier, queued, next);
    }
  }

  lemma NoneDone(web: Web, needle: string, seen: set<(Pk, string)>, queued: set<Pk>)
    ensures AllCovered(web, needle, [], seen) && AllQueued(web, [], queued)
  {}

  lemma AtLevel(web: Web, self: Pk, follows: seq<Pk>, h: nat, maxPublishers: nat, queued: set<Pk>, frontier: seq<Pk>,
                pk: Pk)
    requires Level(web, self, follows, h, maxPublishers, queued, frontier) && pk in frontier
    ensures Distance(web, self, follows, pk, h)
  {}

  lemma HitCount(web: Web, self: Pk, follows: seq<Pk>, needle: string, out: seq<Hit>, seen: set<(Pk, string)>)
    requires Collected(web, self, follows, needle, out, seen)
    ensures |out| <= MAX_RESULTS
  {}

  lemma EndLevel(web: Web, self: Pk, follows: seq<Pk>, h: nat, maxPublishers: nat, queued: set<Pk>, frontier: seq<Pk>,
                 queued': set<Pk>, next: seq<Pk>)
    requires Level(web, self, follows, h, maxPublishers, queued, frontier)
    requires Widened(web, self, follows, h, maxPublishers, queued, queued', next)
    requires |queued'| <= maxPublishers ==> AllQueued(web, frontier, queued')
    ensures Level(web, self, follows, h + 1, maxPublishers, queued', next)
  {
    NextLevel(web, self, follows, h, maxPublishers, queued, frontier, queued', next);
  }

  // ---- the search ---------------------------------------------------------------------------------------------------

  predicate ByHops(hits: seq<Hit>) {
    forall i, j :: 0 <= i < j < |hits| ==> hits[i].hops <= hits[j].hops
  }

  predicate NoKeyTwice(hits: seq<Hit>) {
    forall i, j :: 0 <= i < j < |hits| ==> Key(hits[i]) != Key(hits[j])
  }

  function Key(h: Hit): (Pk, string) { (h.pk, h.entry.ih) }

  /** The same hits, nearest first. */
  method Finish(out: seq<Hit>) returns (hits: seq<Hit>)
    requires NoKeyTwice(out)
    ensures ByHops(hits) && NoKeyTwice(hits) && |hits| == |out| && forall h :: h in hits <==> h in out
  {
    hits := [];
    for k := 0 to |out|
      invariant ByHops(hits) && NoKeyTwice(hits) && |hits| == k && forall h :: h in hits <==> h in out[..k]
    {
      assert out[..k + 1] == out[..k] + [out[k]];
      forall i | 0 <= i < |hits| ensures Key(hits[i]) != Key(out[k]) {
        assert hits[i] in out[..k];
      }
      hits := PutByHops(hits, out[k]);
    }
    assert out[..|out|] == out;
  }

  method PutByHops(hits: seq<Hit>, h: Hit) returns (more: seq<Hit>)
    requires ByHops(hits) && NoKeyTwice(hits) && forall i :: 0 <= i < |hits| ==> Key(hits[i]) != Key(h)
    ensures ByHops(more) && NoKeyTwice(more) && |more| == |hits| + 1 && forall x :: x in more <==> x in hits || x == h
  {
    hide Key;
    var i := 0;
    while i < |hits| && hits[i].hops <= h.hops
      invariant 0 <= i <= |hits| && forall k :: 0 <= k < i ==> hits[k].hops <= h.hops
    {
      i := i + 1;
    }
    more := hits[..i] + [h] + hits[i..];
    assert hits == hits[..i] + hits[i..];
  }

  /** What the results say about the web: every hit is genuine, and no publisher's entry is listed twice. */
  ghost predicate Sound(web: Web, self: Pk, follows: seq<Pk>, needle: string, hits: seq<Hit>) {
    AllGenuine(web, self, follows, needle, hits) && |hits| <= MAX_RESULTS && NoKeyTwice(hits) && ByHops(hits)
  }

  /** Every matching entry of every publisher within the depth is among the hits. */
  ghost predicate Complete(web: Web, self: Pk, follows: seq<Pk>, needle: string, depth: nat, hits: seq<Hit>) {
    forall p, e :: p in Within(web, self, follows, depth) && e in Load(web, p).entries && Contains(e.lower, needle) ==>
      exists h :: h in hits && Key(h) == (p, e.ih)
  }

  method FinishSearch(web: Web, self: Pk, follows: seq<Pk>, needle: string, out: seq<Hit>,
                      ghost seen: set<(Pk, string)>)
    returns (hits: seq<Hit>)
    requires Collected(web, self, follows, needle, out, seen)
    ensures Sound(web, self, follows, needle, hits) && |hits| == |out|
    ensures forall h :: h in hits <==> h in out
    ensures forall k :: k in seen ==> exists h :: h in hits && Key(h) == k
  {
    hide Genuine;
    hits := Finish(out);
    forall i | 0 <= i < |hits| ensures Genuine(web, self, follows, needle, hits[i]) {
      assert hits[i] in out;
    }
    forall k | k in seen ensures exists h :: h in hits && Key(h) == k {
      var i :| 0 <= i < |out| && (out[i].pk, out[i].entry.ih) == k;
      assert out[i] in out && Key(out[i]) == k;
    }
  }

  /** Who has been loaded: each publisher once, never self, only publishers that were queued. */
  ghost predicate Visits(self: Pk, queued: set<Pk>, visited: seq<Pk>, frontier: seq<Pk>) {
    NoRepeats(visited + frontier) && Elements(visited + frontier) == queued - {self} && self in queued
  }

  lemma {:induction false} Length(s: seq<Pk>)
    requires NoRepeats(s)
    ensures |s| == |Elements(s)|
  {
    if s == [] {
    } else {
      var rest := s[..|s| - 1];
      Length(rest);
      assert s == rest + [s[|s| - 1]];
      assert Elements(s) == Elements(rest) + {s[|s| - 1]};
      assert s[|s| - 1] !in Elements(rest);
    }
  }

  lemma VisitsBound(self: Pk, queued: set<Pk>, visited: seq<Pk>, frontier: seq<Pk>, maxPublishers: nat)
    requires Visits(self, queued, visited, frontier) && |queued| <= maxPublishers + 1
    ensures |visited| <= maxPublishers && NoRepeats(visited) && self !in visited
  {
    Length(visited + frontier);
    assert |queued - {self}| == |queued| - 1;
    forall i, j | 0 <= i < j < |visited| ensures visited[i] != visited[j] {
      assert (visited + frontier)[i] == visited[i] && (visited + frontier)[j] == visited[j];
    }
    assert forall p :: p in visited ==> p in visited + frontier;
    assert self !in Elements(visited + frontier);
    assert forall p :: p in visited + frontier ==> p in Elements(visited + frontier);
  }

  lemma VisitsNext(self: Pk, queued: set<Pk>, visited: seq<Pk>, frontier: seq<Pk>, queued': set<Pk>, next: seq<Pk>)
    requires Visits(self, queued, visited, frontier) && queued <= queued' && NoRepeats(next)
      && Elements(next) == queued' - queued
    ensures Visits(self, queued', visited + frontier, next)
  {
    var done := visited + frontier;
    assert forall p :: p in done <==> p in Elements(done);
    assert forall p :: p in next <==> p in Elements(next);
    assert Elements(done + next) == Elements(done) + Elements(next);
    forall i, j | 0 <= i < j < |done + next| ensures (done + next)[i] != (done + next)[j] {
      if i < |done| && j >= |done| {
        assert (done + next)[i] in done && (done + next)[j] in next;
      }
    }
  }

  /**
   The last level has been walked: everything queued lies within the depth, and with budget to spare nothing is
   missing.
   */
  ghost predicate Last(web: Web, self: Pk, follows: seq<Pk>, depth: nat, maxPublishers: nat, queued: set<Pk>) {
    && self in queued && queued - {self} <= Within(web, self, follows, depth)
    && (|queued| <= maxPublishers ==> Within(web, self, follows, depth) <= queued)
  }

  lemma LevelIsLast(web: Web, self: Pk, follows: seq<Pk>, h: nat, depth: nat, maxPublishers: nat, queued: set<Pk>,
                    frontier: seq<Pk>)
    requires Level(web, self, follows, h, maxPublishers, queued, frontier) && h <= depth
      && (h == depth || frontier == [])
    ensures Last(web, self, follows, depth, maxPublishers, queued)
  {
    WithinGrows(web, self, follows, h, depth);
    if h < depth && |queued| <= maxPublishers {
      assert Elements(frontier) == {};
      Closed(web, self, follows, h, depth);
    }
  }

  lemma FirstLevel(web: Web, self: Pk, follows: seq<Pk>, maxPublishers: nat, queued: set<Pk>, frontier: seq<Pk>)
    requires {self} <= queued <= {self} + Elements(follows) && |queued| <= maxPublishers + 1
    requires NoRepeats(frontier) && Elements(frontier) == Elements([]) + (queued - {self})
    requires |queued| <= maxPublishers ==> Elements(follows) <= queued
    ensures Level(web, self, follows, 0, maxPublishers, queued, frontier) && Visits(self, queued, [], frontier)
  {
    assert [] + frontier == frontier;
    assert forall p :: p in frontier ==> p in Elements(frontier);
    assert Within(web, self, follows, 0) == Elements(follows) - {self};
  }

  lemma VisitsWithin(web: Web, self: Pk, follows: seq<Pk>, h: nat, depth: nat, maxPublishers: nat, queued: set<Pk>,
                     frontier: seq<Pk>, visited: seq<Pk>)
    requires Level(web, self, follows, h, maxPublishers, queued, frontier) && h <= depth
      && Visits(self, queued, visited, frontier)
    ensures Elements(visited + frontier) <= Within(web, self, follows, depth)
  {
    WithinGrows(web, self, follows, h, depth);
  }

  /** The walk stopped after loading the first k of the frontier. */
  lemma PrefixVisits(self: Pk, queued: set<Pk>, visited: seq<Pk>, frontier: seq<Pk>, loaded: seq<Pk>,
                     maxPublishers: nat)
    requires Visits(self, queued, visited, frontier) && loaded <= frontier && |queued| <= maxPublishers + 1
    ensures var all := visited + loaded; NoRepeats(all) && self !in all && |all| <= maxPublishers
    ensures Elements(visited + loaded) <= Elements(visited + frontier)
  {
    var all := visited + frontier;
    assert all + [] == all;
    VisitsBound(self, queued, all, [], maxPublishers);
    assert visited + loaded == all[..|visited| + |loaded|];
  }

  // ---- nearest first ------------------------------------------------------------------------------------------------

  /** Nobody is visited while a nearer publisher is passed over. */
  ghost predicate NearestFirst(web: Web, self: Pk, follows: seq<Pk>, visited: seq<Pk>) {
    forall q, n :: q in visited && Distance(web, self, follows, q, n) ==>
      Within(web, self, follows, n - 1) <= Elements(visited)
  }

  /** A level is only begun once everything nearer has been visited. */
  lemma NearerVisited(web: Web, self: Pk, follows: seq<Pk>, h: nat, maxPublishers: nat, queued0: set<Pk>,
                      frontier: seq<Pk>,
                      queued: set<Pk>, next: seq<Pk>, visited: seq<Pk>)
    requires Level(web, self, follows, h, maxPublishers, queued0, frontier) && Visits(self, queued0, visited, frontier)
    requires Widened(web, self, follows, h, maxPublishers, queued0, queued, next) && next != []
    ensures Within(web, self, follows, h) <= Elements(visited + frontier)
  {
    WithinGrows(web, self, follows, h, h);
  }

  lemma NearestMore(web: Web, self: Pk, follows: seq<Pk>, h: nat, maxPublishers: nat, queued: set<Pk>,
                    frontier: seq<Pk>,
                    loaded: seq<Pk>, visited: seq<Pk>)
    requires Level(web, self, follows, h, maxPublishers, queued, frontier) && loaded <= frontier
    requires NearestFirst(web, self, follows, visited)
    requires frontier != [] ==> Within(web, self, follows, h - 1) <= Elements(visited)
    ensures NearestFirst(web, self, follows, visited + loaded)
  {
    hide Within;
    var all := visited + loaded;
    assert Elements(visited) <= Elements(all);
    forall q, n | q in all && Distance(web, self, follows, q, n)
      ensures Within(web, self, follows, n - 1) <= Elements(all)
    {
      if q !in visited {
        assert q in frontier;
        DistanceIsShortest(web, self, follows, q, n, h);
        DistanceIsShortest(web, self, follows, q, h, n);
      }
    }
  }

  /** Why the walk ended: a limit was reached, or everything within the depth has been visited. */
  ghost predicate Ended(web: Web, self: Pk, follows: seq<Pk>, depth: nat, maxPublishers: nat, loads: nat,
                        visited: seq<Pk>, hits: seq<Hit>) {
    || |visited| == loads || |hits| == MAX_RESULTS || |visited| == maxPublishers
    || Elements(visited) == Within(web, self, follows, depth)
  }

  lemma WalkedAll(web: Web, self: Pk, follows: seq<Pk>, depth: nat, maxPublishers: nat, queued: set<Pk>,
                  visited: seq<Pk>)
    requires Last(web, self, follows, depth, maxPublishers, queued) && Visits(self, queued, visited, [])
      && |queued| <= maxPublishers + 1
    ensures |visited| == maxPublishers || Elements(visited) == Within(web, self, follows, depth)
  {
    assert visited + [] == visited;
    Length(visited);
    assert |queued - {self}| == |queued| - 1;
    WithinGrows(web, self, follows, depth, depth);
  }

  lemma AllSeen(web: Web, self: Pk, follows: seq<Pk>, needle: string, depth: nat, maxPublishers: nat,
                queued: set<Pk>, visited: seq<Pk>, seen: set<(Pk, string)>, hits: seq<Hit>)
    requires Last(web, self, follows, depth, maxPublishers, queued) && Visits(self, queued, visited, [])
    requires AllCovered(web, needle, visited, seen) && |Within(web, self, follows, depth)| < maxPublishers
    requires forall k :: k in seen ==> exists h :: h in hits && Key(h) == k
    ensures Complete(web, self, follows, needle, depth, hits) && Elements(visited) == Within(web, self, follows, depth)
  {
    var all := Within(web, self, follows, depth);
    assert visited + [] == visited;
    Smaller(queued - {self}, all);
    assert |queued - {self}| == |queued| - 1;
    WithinGrows(web, self, follows, depth, depth);
    assert all <= queued - {self};
    forall p, e | p in all && e in Load(web, p).entries && Contains(e.lower, needle)
      ensures exists h :: h in hits && Key(h) == (p, e.ih)
    {
      assert p in Elements(visited);
      assert Covered(web, needle, p, seen);
    }
  }

  lemma {:induction false} Smaller(a: set<Pk>, b: set<Pk>)
    requires a <= b
    ensures |a| <= |b|
  {
    if a != {} {
      var e :| e in a;
      Smaller(a - {e}, b - {e});
    }
  }

  /** Nothing was cut short: neither the publisher budget, nor the deadline, nor the result limit. */
  ghost predicate Uncut(web: Web, self: Pk, follows: seq<Pk>, depth: nat, maxPublishers: nat, loads: nat,
                        visited: seq<Pk>, hits: seq<Hit>) {
    |Within(web, self, follows, depth)| < maxPublishers && |visited| < loads && |hits| < MAX_RESULTS
  }

  /** The publishers visited account for all the hits, and their matches are all among them but for the last one's. */
  ghost predicate Accounts(web: Web, needle: string, visited: seq<Pk>, hits: seq<Hit>) {
    && (forall h :: h in hits ==> h.pk in visited)
    && forall i, e ::
         && 0 <= i < |visited| && (i < |visited| - 1 || |hits| < MAX_RESULTS)
         && e in Load(web, visited[i]).entries && Contains(e.lower, needle)
         ==> exists h :: h in hits && Key(h) == (visited[i], e.ih)
  }

  lemma AccountsFor(web: Web, needle: string, out: seq<Hit>, seen: set<(Pk, string)>, visited: seq<Pk>, hits: seq<Hit>)
    requires FromLoaded(out, visited) && AllButLast(web, needle, out, seen, visited) && |hits| == |out|
    requires forall h :: h in hits <==> h in out
    requires forall k :: k in seen ==> exists h :: h in hits && Key(h) == k
    ensures Accounts(web, needle, visited, hits)
  {
    forall i, e | 0 <= i < |visited| && (i < |visited| - 1 || |hits| < MAX_RESULTS) &&
        e in Load(web, visited[i]).entries && Contains(e.lower, needle)
      ensures exists h :: h in hits && Key(h) == (visited[i], e.ih)
    {
      if i < |visited| - 1 { assert visited[..|visited| - 1][i] == visited[i]; }
      assert Covered(web, needle, visited[i], seen);
    }
  }

  /**
   The search: `loads` catalogs can be loaded before the deadline, and `visited` lists those that were, in order.
   Whatever cuts the walk short, every publisher is visited at most once and none while a nearer one is passed over,
   and the hits are exactly theirs, with exact distances; uncut, the search finds everything within the depth.
   */
  method Search(self: Pk, follows: seq<Pk>, web: Web, needle: string, depth: nat, maxPublishers: nat, loads: nat)
    returns (hits: seq<Hit>, ghost visited: seq<Pk>)
    ensures Sound(web, self, follows, needle, hits)
    ensures NoRepeats(visited) && self !in visited && |visited| <= maxPublishers && |visited| <= loads
    ensures Elements(visited) <= Within(web, self, follows, depth) && NearestFirst(web, self, follows, visited)
    ensures Accounts(web, needle, visited, hits)
    ensures Ended(web, self, follows, depth, maxPublishers, loads, visited, hits)
    ensures Uncut(web, self, follows, depth, maxPublishers, loads, visited, hits) ==>
      Complete(web, self, follows, needle, depth, hits) && Elements(visited) == Within(web, self, follows, depth)
  {
    hide Level, Collected, Widened, Visits, AllCovered, Last, Sound, Complete, Within, Elements, NoRepeats,
    NearestFirst,
      FromLoaded, AllButLast, Accounts;
    NothingYet(web, self, follows, needle, depth);
    var queued, frontier := Enqueue(follows, maxPublishers, {self}, []);
    var out: seq<Hit>, seen: set<(Pk, string)>, left := [], {}, loads;
    visited := [];
    FirstLevel(web, self, follows, maxPublishers, queued, frontier);
    var hops := 0;
    while hops <= depth && frontier != []
      invariant 0 <= hops <= depth + 1 && |queued| <= maxPublishers + 1 && left == loads - |visited|
      invariant Collected(web, self, follows, needle, out, seen) && AllCovered(web, needle, visited, seen)
        && FromLoaded(out, visited)
      invariant Visits(self, queued, visited, frontier)
      invariant Elements(visited) <= Within(web, self, follows, depth) && NearestFirst(web, self, follows, visited)
      invariant frontier != [] ==> Within(web, self, follows, hops - 1) <= Elements(visited)
      invariant hops <= depth ==> Level(web, self, follows, hops, maxPublishers, queued, frontier)
      invariant hops == depth + 1 ==> frontier == [] && Last(web, self, follows, depth, maxPublishers, queued)
      decreases depth + 1 - hops
    {
      ghost var was, loaded := queued, [];
      VisitsWithin(web, self, follows, hops, depth, maxPublishers, queued, frontier, visited);
      var next, rest, stop;
      queued, next, out, seen, rest, stop, loaded :=
        VisitLevel(web, self, follows, needle, depth, maxPublishers, hops, frontier, queued, out, seen, left, visited);
      NearestMore(web, self, follows, hops, maxPublishers, was, frontier, loaded, visited);
      if stop {
        PrefixVisits(self, was, visited, frontier, loaded, maxPublishers);
        visited := visited + loaded;
        hits := FinishSearch(web, self, follows, needle, out, seen);
        AccountsFor(web, needle, out, seen, visited, hits);
        return;
      }
      WidenedQueue(web, self, follows, hops, maxPublishers, was, queued, next);
      VisitsNext(self, was, visited, frontier, queued, next);
      if next != [] { NearerVisited(web, self, follows, hops, maxPublishers, was, frontier, queued, next, visited); }
      if hops == depth { LevelIsLast(web, self, follows, hops, depth, maxPublishers, was, frontier); }
      visited := visited + loaded;
      left := rest;
      frontier := next;
      hops := hops + 1;
    }
    if hops <= depth { LevelIsLast(web, self, follows, hops, depth, maxPublishers, queued, frontier); }
    VisitsBound(self, queued, visited, frontier, maxPublishers);
    hits := FinishSearch(web, self, follows, needle, out, seen);
    NoneCut(web, needle, out, seen, visited);
    AccountsFor(web, needle, out, seen, visited, hits);
    WalkedAll(web, self, follows, depth, maxPublishers, queued, visited);
    if |Within(web, self, follows, depth)| < maxPublishers {
      AllSeen(web, self, follows, needle, depth, maxPublishers, queued, visited, seen, hits);
    }
  }

  lemma NothingYet(web: Web, self: Pk, follows: seq<Pk>, needle: string, depth: nat)
    ensures Collected(web, self, follows, needle, [], {}) && AllCovered(web, needle, [], {}) && FromLoaded([], [])
    ensures Elements([]) == {} && NoRepeats([]) && NearestFirst(web, self, follows, [])
      && Within(web, self, follows, -1) == {}
  {}

  lemma WidenedQueue(web: Web, self: Pk, follows: seq<Pk>, h: nat, maxPublishers: nat, queued0: set<Pk>,
                     queued: set<Pk>, next: seq<Pk>)
    requires Widened(web, self, follows, h, maxPublishers, queued0, queued, next)
    ensures queued0 <= queued && |queued| <= maxPublishers + 1 && NoRepeats(next) && Elements(next) == queued - queued0
  {}
}
