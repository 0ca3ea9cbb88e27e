/**
 What the steps of the catalog lifecycle achieve (src/node.ts:1158-1299), each stated of the state before and after:
 who reads, who retains, which record an infohash names, which torrent is open and which directory exists.
 */
module CatalogEffects {
  import opened Options
  import opened CatalogBook
  import opened CatalogQueues
  import opened CatalogCap
  import opened CatalogSteps
  import opened CatalogRuns

  // ---- what stays ----------------------------------------------------------------------------------------------

  /** The torrents, the directories and the set of records. */
  predicate SameWorld(b: Book, c: Book) {
    c.torrents == b.torrents && c.dirs == b.dirs && c.gens == b.gens && c.recs.Keys == b.recs.Keys
  }

  predicate SameReaders(s: State, t: State) {
    t.readers == s.readers && t.nextReader == s.nextReader
  }

  /** An infohash keeps its record, unless that is a borrowed one nobody uses any more. */
  ghost predicate RefsKept(b: Book, c: Book) {
    && (forall ih :: ih in c.refs ==> ih in b.refs && c.refs[ih] == b.refs[ih])
    && forall ih :: ih in b.refs && ih !in c.refs ==> Idle(c, b.refs[ih]) && !c.recs[b.refs[ih]].owned
  }

  /** Room was needed: more owned torrents than the cap, and this one has no reader. */
  predicate Evictable(b: Book, q: Ref, max: nat) {
    q in OwnedLive(b) && b.recs[q].readers == 0 && |OwnedLive(b)| > max
  }

  /** Publishers but those of `left` keep their current catalog, unless it was evicted. */
  ghost predicate CurrentKept(b: Book, c: Book, left: set<Pk>, max: nat) {
    && (forall o :: o in c.current && o !in left ==> o in b.current && c.current[o] == b.current[o])
    && forall o :: o in b.current && o !in left && o !in c.current ==>
         b.current[o] in c.recs && c.recs[b.current[o]].retainedBy == {}
  }

  /** What a destruction does to the books: an idle borrowed record may leave `refs`. */
  lemma MaybeDestroyBook(s: State, r: Ref)
    requires r in s.b.recs
    ensures var t := MaybeDestroy(s, r);
      && t.b.recs == s.b.recs && t.b.current == s.b.current && SameWorld(s.b, t.b) && SameReaders(s, t)
      && RefsKept(s.b, t.b) && OwnedLive(t.b) == OwnedLive(s.b)
  {
    var t := MaybeDestroy(s, r);
    assert forall q :: q in s.b.recs && s.b.recs[q].owned ==> (InRefs(t.b, q) <==> InRefs(s.b, q));
  }

  // ---- the cap ------------------------------------------------------------------------------------------------------

  /** A pass takes idle owned torrents out of use, and does nothing else. */
  ghost predicate Capped(u: State, t: State, max: nat) {
    && SameReaders(u, t) && SameWorld(u.b, t.b) && t.b.refs == u.b.refs
    && (forall q :: q in u.b.recs ==>
          t.b.recs[q] == u.b.recs[q] || (t.b.recs[q] == u.b.recs[q].(retainedBy := {}) && Evictable(u.b, q, max)))
    && CurrentKept(u.b, t.b, {}, max)
  }

  lemma LeastRecentEvictable(b: Book, max: nat, picked: set<Ref>)
    requires LeastRecent(b, max, picked)
    ensures forall q :: q in picked ==> Evictable(b, q, max)
  {}

  lemma EvictedCapped(u: State, t: State, picked: set<Ref>, max: nat)
    requires SameReaders(u, t) && Evicted(u.b, t.b, picked) && Named(u.b)
    requires forall q :: q in picked ==> Evictable(u.b, q, max)
    ensures Capped(u, t, max)
  {
    hide Evictable, OwnedLive;
  }

  lemma CapIsCapped(u: State, order: seq<Ref>, max: nat)
    requires ByUse(u.b, order) && Retention(u.b) && Named(u.b)
    ensures Capped(u, Cap(u, order, max), max)
  {
    var t := Cap(u, order, max);
    CapReaders(u, order, max);
    CapIsLru(u, order, max);
    hide Cap, ByUse, Retention, Evicted, LeastRecent, Named, OwnedLive, SameReaders, Capped, Evictable;
    var picked :| Evicted(u.b, t.b, picked) && LeastRecent(u.b, max, picked);
    LeastRecentEvictable(u.b, max, picked);
    EvictedCapped(u, t, picked, max);
  }

  lemma CapReaders(u: State, order: seq<Ref>, max: nat)
    requires ByUse(u.b, order) && Retention(u.b)
    ensures SameReaders(u, Cap(u, order, max))
  {
    if |order| > max { EvictEffect(u, order, |order| - max); }
  }

  // ---- retain ---------------------------------------------------------------------------------------------------

  /** pk's catalog is r from now on, and only r; nobody else loses anything but to the cap. */
  ghost predicate Retained(s: State, t: State, pk: Pk, r: Ref, now: nat, max: nat) {
    && SameReaders(s, t) && SameWorld(s.b, t.b) && RefsKept(s.b, t.b)
    && r in s.b.recs && pk in t.b.current && t.b.current[pk] == r
    && t.b.recs[r] == s.b.recs[r].(retainedBy := s.b.recs[r].retainedBy + {pk}, lastUse := now)
    && (forall q :: q in s.b.recs && q != r ==> Unretained(s.b.recs[q], t.b.recs[q], pk, Evictable(s.b, q, max)))
    && CurrentKept(s.b, t.b, {pk}, max)
  }

  /** The record keeps its other retainers, or was evicted. */
  predicate Unretained(c: Rec, d: Rec, pk: Pk, evictable: bool) {
    d == c.(retainedBy := c.retainedBy - {pk}) || (d == c.(retainedBy := {}) && evictable)
  }

  /** The same before the cap. */
  ghost predicate Moved(s: State, u: State, pk: Pk, r: Ref, now: nat) {
    && SameReaders(s, u) && SameWorld(s.b, u.b) && RefsKept(s.b, u.b) && OwnedLive(u.b) == OwnedLive(s.b)
    && r in s.b.recs && u.b.current == s.b.current[pk := r]
    && u.b.recs[r] == s.b.recs[r].(retainedBy := s.b.recs[r].retainedBy + {pk}, lastUse := now)
    && forall q :: q in s.b.recs && q != r ==> u.b.recs[q] == s.b.recs[q].(retainedBy := s.b.recs[q].retainedBy - {pk})
  }

  /** pk loses its current catalog. */
  ghost predicate Left(s: State, u: State, pk: Pk) {
    && SameReaders(s, u) && SameWorld(s.b, u.b) && RefsKept(s.b, u.b) && OwnedLive(u.b) == OwnedLive(s.b)
    && u.b.current == s.b.current - {pk}
    && forall q :: q in s.b.recs ==> u.b.recs[q] == s.b.recs[q].(retainedBy := s.b.recs[q].retainedBy - {pk})
  }

  lemma LeaveLeft(s: State, pk: Pk)
    requires Retention(s.b) && (pk in s.b.current ==> s.b.current[pk] in s.b.recs)
    ensures Left(s, Leave(s, pk), pk)
  {
    if pk in s.b.current {
      var v := s.(b := Unhold(s.b, pk));
      UnholdLeft(s, pk);
      MaybeDestroyBook(v, s.b.current[pk]);
      hide MaybeDestroy, Retention, OwnedLive, Unhold;
      RefsKeptTwice(s.b, v.b, Leave(s, pk).b);
    } else {
      assert s.b.current - {pk} == s.b.current;
      forall q | q in s.b.recs ensures s.b.recs[q] == s.b.recs[q].(retainedBy := s.b.recs[q].retainedBy - {pk}) {
        assert s.b.recs[q].retainedBy - {pk} == s.b.recs[q].retainedBy;
      }
    }
  }

  lemma UnholdLeft(s: State, pk: Pk)
    requires Retention(s.b) && pk in s.b.current && s.b.current[pk] in s.b.recs
    ensures Left(s, s.(b := Unhold(s.b, pk)), pk) && Unhold(s.b, pk).refs == s.b.refs
  {
    var c := Unhold(s.b, pk);
    forall q | q in s.b.recs ensures c.recs[q] == s.b.recs[q].(retainedBy := s.b.recs[q].retainedBy - {pk}) {
      if q != s.b.current[pk] { assert s.b.recs[q].retainedBy - {pk} == s.b.recs[q].retainedBy; }
    }
    assert OwnedLive(c) == OwnedLive(s.b);
  }

  lemma RefsKeptTwice(b: Book, c: Book, d: Book)
    requires RefsKept(b, c) && RefsKept(c, d) && d.recs == c.recs
    ensures RefsKept(b, d)
  {}

  lemma HoldOwned(b: Book, pk: Pk, r: Ref, now: nat)
    requires r in b.recs
    ensures OwnedLive(Hold(b, pk, r, now)) == OwnedLive(b)
  {}

  lemma HoldMoved(s: State, u: State, pk: Pk, r: Ref, now: nat)
    requires Left(s, u, pk) && r in s.b.recs && s.b.recs[r].readers > 0
    ensures Moved(s, u.(b := Hold(u.b, pk, r, now)), pk, r, now)
  {
    HoldOwned(u.b, pk, r, now);
    hide OwnedLive;
    assert s.b.recs[r].retainedBy - {pk} + {pk} == s.b.recs[r].retainedBy + {pk};
    assert (s.b.current - {pk})[pk := r] == s.b.current[pk := r];
  }

  lemma RepointMoved(s: State, pk: Pk, r: Ref, now: nat)
    requires Retention(s.b) && r in s.b.recs && s.b.recs[r].readers > 0
    requires pk in s.b.current ==> s.b.current[pk] in s.b.recs
    ensures Moved(s, Repoint(s, pk, r, now), pk, r, now)
  {
    LeaveLeft(s, pk);
    hide Left, Moved, Leave, Retention, Hold;
    HoldMoved(s, Leave(s, pk), pk, r, now);
  }

  lemma MovedRetention(s: State, u: State, pk: Pk, r: Ref, now: nat)
    requires Retention(s.b) && Named(s.b) && Moved(s, u, pk, r, now)
    ensures Retention(u.b) && Named(u.b)
  {
    hide OwnedLive, SameReaders;
  }

  lemma MovedThenCapped(s: State, u: State, t: State, pk: Pk, r: Ref, now: nat, max: nat)
    requires Moved(s, u, pk, r, now) && Capped(u, t, max) && s.b.recs[r].readers > 0 && Named(s.b)
    ensures Retained(s, t, pk, r, now, max)
  {
    hide OwnedLive;
    assert t.b.recs[r] == u.b.recs[r];
    forall q | q in s.b.recs && q != r ensures Unretained(s.b.recs[q], t.b.recs[q], pk, Evictable(s.b, q, max)) {
      assert Evictable(u.b, q, max) ==> Evictable(s.b, q, max);
    }
    CappedRefs(s, u, t, max);
    CappedCurrent(s, u, t, pk, r, now, max);
  }

  lemma CappedRefs(s: State, u: State, t: State, max: nat)
    requires RefsKept(s.b, u.b) && Capped(u, t, max)
    ensures RefsKept(s.b, t.b)
  {
    hide OwnedLive, Evictable;
  }

  lemma CappedCurrent(s: State, u: State, t: State, pk: Pk, r: Ref, now: nat, max: nat)
    requires Moved(s, u, pk, r, now) && Capped(u, t, max) && s.b.recs[r].readers > 0
    ensures CurrentKept(s.b, t.b, {pk}, max) && pk in t.b.current && t.b.current[pk] == r
  {
    BusyStays(u, t, r, max);
    hide OwnedLive, RefsKept, SameReaders, Evictable;
    CurrentThrough(s.b, u.b, t.b, pk, r, max);
  }

  /** The cap leaves a record with a reader alone. */
  lemma BusyStays(u: State, t: State, r: Ref, max: nat)
    requires Capped(u, t, max) && r in u.b.recs && u.b.recs[r].readers > 0
    ensures r in t.b.recs && t.b.recs[r] == u.b.recs[r]
  {
    hide OwnedLive, CurrentKept;
  }

  lemma CurrentThrough(b: Book, m: Book, c: Book, pk: Pk, r: Ref, max: nat)
    requires m.current == b.current[pk := r] && CurrentKept(m, c, {}, max)
    requires r in c.recs && c.recs[r].retainedBy != {}
    ensures CurrentKept(b, c, {pk}, max) && pk in c.current && c.current[pk] == r
  {
    assert m.current[pk] == r;
  }

  /** retain, whoever calls it for a record in use. */
  lemma RepointCapped(s: State, pk: Pk, r: Ref, now: nat, order: seq<Ref>, max: nat)
    requires Core(s) && r in s.b.recs && s.b.recs[r].readers > 0
    requires pk in s.b.current ==> s.b.current[pk] in s.b.recs
    requires ByUse(Repoint(s, pk, r, now).b, order)
    ensures Retained(s, Cap(Repoint(s, pk, r, now), order, max), pk, r, now, max)
  {
    assert Retention(s.b) && Named(s.b);
    hide Core, Repoint, Cap, ByUse, Retained, Moved, Capped, Retention, Named;
    var u := Repoint(s, pk, r, now);
    RepointMoved(s, pk, r, now);
    MovedRetention(s, u, pk, r, now);
    CapIsCapped(u, order, max);
    MovedThenCapped(s, u, Cap(u, order, max), pk, r, now, max);
  }

  /** A finished load makes its record the publisher's current catalog, or finds that it already is. */
  lemma RetainEffect(s: State, h: nat, now: nat, order: seq<Ref>, max: nat)
    requires Core(s) && Enabled(s, Retain(h, now, order))
    ensures var t := Next(s, Retain(h, now, order), max);
      var pk, r := s.readers[h].pk, s.readers[h].ref;
      && pk in t.b.current && t.b.current[pk] == r && r in t.b.recs && pk in t.b.recs[r].retainedBy
      && if pk in s.b.current && s.b.current[pk] == r then t == s else Retained(s, t, pk, r, now, max)
  {
    var pk, r := s.readers[h].pk, s.readers[h].ref;
    RetainNext(s, h, now, order, max);
    HeldByLoad(s, h);
    if pk in s.b.current && s.b.current[pk] == r {
      assert Retention(s.b);
      hide Core, Next, Enabled;
    } else {
      hide Core, Next, Enabled, Repoint, Cap, ByUse;
      RepointCapped(s, pk, r, now, order, max);
    }
  }

  // ---- release ----------------------------------------------------------------------------------------------------

  /** The load is over: its record has one reader fewer; nobody loses a retention but to the cap. */
  ghost predicate Released(s: State, t: State, h: nat, r: Ref, max: nat) {
    && t.readers == s.readers - {h} && t.nextReader == s.nextReader && SameWorld(s.b, t.b) && RefsKept(s.b, t.b)
    && r in s.b.recs && s.b.recs[r].readers > 0
    && (forall q :: q in s.b.recs ==> Dropped(s.b, t.b, q, if q == r then 1 else 0, max))
    && CurrentKept(s.b, t.b, {}, max)
  }

  /** q lost `n` readers and nothing else, or was evicted. */
  predicate Dropped(b: Book, c: Book, q: Ref, n: nat, max: nat)
    requires q in b.recs && q in c.recs && n <= b.recs[q].readers
  {
    var d := b.recs[q].(readers := b.recs[q].readers - n);
    || c.recs[q] == d
    || (c.recs[q] == d.(retainedBy := {}) && q in OwnedLive(b) && d.readers == 0 && |OwnedLive(b)| > max)
  }

  lemma LetGoBook(s: State, h: nat, r: Ref)
    requires h in s.readers && s.readers[h].ref == r && r in s.b.recs && s.b.recs[r].readers > 0
    ensures var u := LetGo(s, h);
      && u.readers == s.readers - {h} && u.nextReader == s.nextReader && SameWorld(s.b, u.b) && RefsKept(s.b, u.b)
      && OwnedLive(u.b) == OwnedLive(s.b) && u.b.current == s.b.current
      && u.b.recs == s.b.recs[r := s.b.recs[r].(readers := s.b.recs[r].readers - 1)]
  {
    var v := s.(b := Drop(s.b, r), readers := s.readers - {h});
    assert OwnedLive(v.b) == OwnedLive(s.b);
    MaybeDestroyBook(v, r);
    hide MaybeDestroy, OwnedLive;
    RefsKeptTwice(s.b, v.b, LetGo(s, h).b);
  }

  lemma ReleaseCapped(s: State, u: State, t: State, h: nat, r: Ref, max: nat)
    requires u.readers == s.readers - {h} && u.nextReader == s.nextReader && SameWorld(s.b, u.b) && RefsKept(s.b, u.b)
    requires OwnedLive(u.b) == OwnedLive(s.b) && u.b.current == s.b.current && r in s.b.recs && s.b.recs[r].readers > 0
    requires u.b.recs == s.b.recs[r := s.b.recs[r].(readers := s.b.recs[r].readers - 1)]
    requires Capped(u, t, max)
    ensures Released(s, t, h, r, max)
  {
    CappedRefs(s, u, t, max);
    hide OwnedLive, RefsKept;
  }

  lemma ReleaseEffect(s: State, h: nat, order: seq<Ref>, max: nat)
    requires Core(s) && Enabled(s, Release(h, order))
    ensures Released(s, Next(s, Release(h, order), max), h, s.readers[h].ref, max)
  {
    ReleaseNext(s, h, order, max);
    var r := s.readers[h].ref;
    LetGoBook(s, h, r);
    assert Named(s.b) && Retention(s.b);
    var u := LetGo(s, h);
    DropRetention(s.b, u.b);
    hide Core, Next, Enabled, LetGo, Cap, ByUse, Released, Retention, OwnedLive, Named, Capped;
    CapIsCapped(u, order, max);
    ReleaseCapped(s, u, Cap(u, order, max), h, r, max);
  }

  lemma DropRetention(b: Book, c: Book)
    requires Retention(b) && Named(b) && SameWorld(b, c) && RefsKept(b, c) && c.current == b.current
    requires forall q :: q in b.recs ==> c.recs[q] == b.recs[q].(readers := c.recs[q].readers)
    ensures Retention(c) && Named(c)
  {}

  // ---- retire and touch ---------------------------------------------------------------------------------------------

  /** pk's current catalog is of the infohash asked for, if one is. */
  predicate Wanted(b: Book, pk: Pk, only: Option<Ih>) {
    pk in b.current && b.current[pk] in b.recs && (only.Some? ==> b.recs[b.current[pk]].ih == only.value)
  }

  /** pk has no catalog any more; every other publisher keeps its own, and no record changes otherwise. */
  lemma RetireEffect(s: State, pk: Pk, only: Option<Ih>)
    requires Core(s)
    ensures var t := RetireStep(s, pk, only); if Wanted(s.b, pk, only) then Left(s, t, pk) else t == s
  {
    assert Retention(s.b) && Named(s.b);
    if pk in s.b.current { CurrentKnown(s, pk); }
    hide Core, Left, Retention, Named;
    LeaveLeft(s, pk);
    hide Leave;
  }

  lemma TouchEffect(s: State, pk: Pk, ih: Ih, now: nat)
    requires Core(s)
    ensures var t := TouchStep(s, pk, ih, now);
      if Wanted(s.b, pk, Some(ih)) then
        var r := s.b.current[pk]; t == s.(b := s.b.(recs := s.b.recs[r := s.b.recs[r].(lastUse := now)]))
      else t == s
  {
    assert Named(s.b);
    hide Core;
  }

  // ---- acquire ----------------------------------------------------------------------------------------------------

  /** The load at the head of ih's queue has got record r and has left the queue. */
  ghost predicate Acquired(s: State, t: State, ih: Ih, r: Ref, c: Rec) {
    && |Queue(s.queues, ih)| > 0 && !Queue(s.queues, ih)[0].Check? && !Queue(s.queues, ih)[0].Removing?
    && t.readers == s.readers[s.nextReader := Reader(Queue(s.queues, ih)[0].pk, r)] && t.nextReader == s.nextReader + 1
    && t.queues == s.queues[ih := Queue(s.queues, ih)[1..]]
    && t.b.recs == s.b.recs[r := c] && ih in t.b.refs && t.b.refs[ih] == r && c.ih == ih && t.b.current == s.b.current
    && forall i :: i != ih ==> (i in t.b.refs <==> i in s.b.refs) && (i in s.b.refs ==> t.b.refs[i] == s.b.refs[i])
  }

  /** A live record gets one reader more and is used now. */
  lemma AcquireLive(s: State, ih: Ih, now: nat)
    requires Core(s) && |Queue(s.queues, ih)| > 0 && Queue(s.queues, ih)[0].Acquire?
    requires ih in s.b.refs && Live(s.b, s.b.refs[ih])
    ensures var r := s.b.refs[ih]; var t := BeginStep(s, ih, now);
      && r in s.b.recs && Acquired(s, t, ih, r, s.b.recs[r].(readers := s.b.recs[r].readers + 1, lastUse := now))
      && t.b.torrents == s.b.torrents && t.b.dirs == s.b.dirs
  {
    assert Named(s.b);
    hide Core;
  }

  predicate IsNamed(b: Book, ih: Ih, q: Ref) { ih in b.refs && b.refs[ih] == q }

  /** No record and nobody's catalog is named through ih any more; nothing else changes. */
  ghost predicate ClearedBook(b: Book, c: Book, ih: Ih) {
    && SameWorld(b, c) && ih !in c.refs
    && (forall i :: i != ih ==> (i in c.refs <==> i in b.refs) && (i in b.refs ==> c.refs[i] == b.refs[i]))
    && (forall q :: q in b.recs ==> c.recs[q] == if IsNamed(b, ih, q) then b.recs[q].(retainedBy := {}) else b.recs[q])
    && (forall o :: o in c.current <==> o in b.current && !IsNamed(b, ih, b.current[o]))
    && (forall o :: o in c.current ==> c.current[o] == b.current[o])
  }

  /** The load at the head asks the client; the stale record is queued if it was owned and nobody reads it. */
  ghost predicate ClearedQueue(s: State, t: State, ih: Ih) {
    && |Queue(s.queues, ih)| > 0 && Queue(s.queues, ih)[0].Acquire?
    && |Queue(t.queues, ih)| > 0 && Queue(t.queues, ih)[0] == Getting(Queue(s.queues, ih)[0].pk)
    && Queue(s.queues, ih)[1..] <= Queue(t.queues, ih)[1..]
    && forall q :: q in s.b.recs && IsNamed(s.b, ih, q) && s.b.recs[q].owned && s.b.recs[q].readers == 0 ==>
         Check(q) in Queue(t.queues, ih)
  }

  /** The client is asked for ih, and a record with a dead torrent is out of the way. */
  ghost predicate Cleared(s: State, t: State, ih: Ih) {
    t.readers == s.readers && ClearedBook(s.b, t.b, ih) && ClearedQueue(s, t, ih)
  }

  lemma AcquireStale(s: State, ih: Ih, now: nat)
    requires Core(s) && |Queue(s.queues, ih)| > 0 && Queue(s.queues, ih)[0].Acquire?
    requires !(ih in s.b.refs && Live(s.b, s.b.refs[ih]))
    ensures Cleared(s, BeginStep(s, ih, now), ih)
  {
    assert Named(s.b) && Retention(s.b);
    hide Core, Retention, ClearedBook, ClearedQueue, Live;
    StaleWaits(s, ih);
    StaleBook(s, ih);
    StaleQueue(s, ih);
    hide DetachStale;
    QueueCleared(s, DetachStale(s, ih), ih, BeginStep(s, ih, now));
  }

  lemma QueueCleared(s: State, u: State, ih: Ih, t: State)
    requires |Queue(s.queues, ih)| > 0 && Queue(s.queues, ih)[0].Acquire? && Queue(s.queues, ih) <= Queue(u.queues, ih)
    requires forall q :: q in s.b.recs && IsNamed(s.b, ih, q) && s.b.recs[q].owned && s.b.recs[q].readers == 0 ==>
      Check(q) in Queue(u.queues, ih)
    requires t.queues == u.queues[ih := Queue(u.queues, ih)[0 := Getting(Queue(s.queues, ih)[0].pk)]]
    ensures ClearedQueue(s, t, ih)
  {
    var w := Queue(u.queues, ih);
    var head := Getting(Queue(s.queues, ih)[0].pk);
    assert w[0 := head][1..] == w[1..];
    forall q | q in s.b.recs && IsNamed(s.b, ih, q) && s.b.recs[q].owned && s.b.recs[q].readers == 0
      ensures Check(q) in Queue(t.queues, ih)
    {
      var k :| 0 <= k < |w| && w[k] == Check(q);
      assert w[0 := head][k] == Check(q);
    }
  }

  lemma StaleBook(s: State, ih: Ih)
    requires Named(s.b) && Retention(s.b)
    ensures ClearedBook(s.b, DetachStale(s, ih).b, ih) && DetachStale(s, ih).readers == s.readers
  {
    if ih in s.b.refs {
      var r := s.b.refs[ih];
      var c := Unregister(Detach(s.b, r), ih);
      assert !InRefs(c, r);
      DetachBook(s.b, r);
      hide Detach, Retention, InRefs;
      Unnamed(s.b, Detach(s.b, r), ih, r);
      MaybeDestroySame(s.(b := c), r);
    }
  }

  /** Forgetting the name of a detached record leaves a cleared book. */
  lemma Unnamed(b: Book, c: Book, ih: Ih, r: Ref)
    requires ih in b.refs && b.refs[ih] == r && r in b.recs && c.refs == b.refs
    requires c.torrents == b.torrents && c.dirs == b.dirs && c.gens == b.gens
    requires c.recs == b.recs[r := b.recs[r].(retainedBy := {})]
    requires forall o :: o in c.current <==> o in b.current && b.current[o] != r
    requires forall o :: o in c.current ==> c.current[o] == b.current[o]
    ensures ClearedBook(b, Unregister(c, ih), ih)
  {}

  /** A record that no infohash names: only its destruction may be queued. */
  lemma MaybeDestroySame(s: State, r: Ref)
    requires r in s.b.recs && !InRefs(s.b, r)
    ensures MaybeDestroy(s, r).b == s.b && MaybeDestroy(s, r).readers == s.readers
  {}

  lemma DetachBook(b: Book, r: Ref)
    requires Retention(b) && r in b.recs
    ensures var c := Detach(b, r);
      && c.torrents == b.torrents && c.dirs == b.dirs && c.gens == b.gens && c.refs == b.refs
      && c.recs == b.recs[r := b.recs[r].(retainedBy := {})]
      && (forall o :: o in c.current <==> o in b.current && b.current[o] != r)
      && (forall o :: o in c.current ==> c.current[o] == b.current[o])
  {}

  lemma StaleQueue(s: State, ih: Ih)
    requires Named(s.b)
    ensures var w := Queue(DetachStale(s, ih).queues, ih);
      && Queue(s.queues, ih) <= w
      && forall q :: q in s.b.recs && IsNamed(s.b, ih, q) && s.b.recs[q].owned && s.b.recs[q].readers == 0 ==>
           Check(q) in w
  {}

  /** A torrent the client already has is borrowed: its new record has the load as its only reader. */
  lemma AcquireFoundEffect(s: State, ih: Ih, n: Tor, r: Ref, now: nat, max: nat)
    requires Core(s) && Enabled(s, AcquireFound(ih, n, r, now))
    ensures var t := Next(s, AcquireFound(ih, n, r, now), max);
      && Acquired(s, t, ih, r, Rec(ih, n, false, 0, 1, {}, now))
      && t.b.torrents == s.b.torrents && t.b.dirs == s.b.dirs
  {
    hide BookOk, QueuesOk, Counted;
  }

  /** Otherwise a fresh generation is prepared, */
  lemma AcquireMissingEffect(s: State, ih: Ih, max: nat)
    requires Core(s) && Enabled(s, AcquireMissing(ih))
    ensures var t := Next(s, AcquireMissing(ih), max);
      && t.b == s.b.(gens := s.b.gens + 1) && t.readers == s.readers
      && t.queues == s.queues[ih := Queue(s.queues, ih)[0 := Making(Queue(s.queues, ih)[0].pk, s.b.gens + 1)]]
      && forall q :: q in s.b.recs && s.b.recs[q].owned ==> s.b.recs[q].gen != s.b.gens + 1
  {
    assert Exclusive(s.b);
    hide QueuesOk, Counted, Retention, Registered, Named;
  }

  /** and its torrent is opened in that generation's own directory, owned, with the load as its only reader. */
  lemma AcquireAddedEffect(s: State, ih: Ih, n: Tor, r: Ref, now: nat, max: nat)
    requires Core(s) && Enabled(s, AcquireAdded(ih, n, r, now))
    ensures var t := Next(s, AcquireAdded(ih, n, r, now), max);
      var gen := Queue(s.queues, ih)[0].gen;
      && Acquired(s, t, ih, r, Rec(ih, n, true, gen, 1, {}, now))
      && t.b.torrents == s.b.torrents[n := Torrent(ih, false)] && t.b.dirs == s.b.dirs + {gen}
      && forall q :: q in s.b.recs && s.b.recs[q].owned ==> s.b.recs[q].gen != gen
  {
    AddedNext(s, ih, n, r, now, max);
    AddedFresh(s, ih, n, r, now);
    hide Core, Next, Enabled, Head;
    AddedAcquires(s, ih, n, r, now);
  }

  lemma AddedFresh(s: State, ih: Ih, n: Tor, r: Ref, now: nat)
    requires Core(s) && Enabled(s, AcquireAdded(ih, n, r, now))
    ensures r !in s.b.recs && Named(s.b) && |Queue(s.queues, ih)| > 0 && Queue(s.queues, ih)[0].Making?
    ensures Head(s, ih) == Queue(s.queues, ih)[0]
  {
    hide QueuesOk, Retention;
  }

  lemma AddedAcquires(s: State, ih: Ih, n: Tor, r: Ref, now: nat)
    requires Named(s.b) && |Queue(s.queues, ih)| > 0 && Queue(s.queues, ih)[0].Making? && r !in s.b.recs
    ensures var gen := Queue(s.queues, ih)[0].gen; var t := AddedStep(s, ih, n, r, now);
      && Acquired(s, t, ih, r, Rec(ih, n, true, gen, 1, {}, now))
      && t.b.torrents == s.b.torrents[n := Torrent(ih, false)] && t.b.dirs == s.b.dirs + {gen}
  {}

  lemma AddedNext(s: State, ih: Ih, n: Tor, r: Ref, now: nat, max: nat)
    requires Core(s) && Enabled(s, AcquireAdded(ih, n, r, now))
    ensures Waiting(s, ih) && Head(s, ih).Making?
    ensures Next(s, AcquireAdded(ih, n, r, now), max) == AddedStep(s, ih, n, r, now)
    ensures forall q :: q in s.b.recs && s.b.recs[q].owned ==> s.b.recs[q].gen != Head(s, ih).gen
  {
    assert HeadHolds(s.b, ih, Head(s, ih));
    hide Core, AddedStep;
  }

  /** A load that starts waits its turn; one that fails or is aborted only leaves the queue. */
  lemma QueueEffect(s: State, e: Event, max: nat)
    requires Core(s) && Enabled(s, e) && (e.StartLoad? || e.AcquireAborted? || e.AcquireFailed?)
    ensures var t := Next(s, e, max);
      && t.b == s.b && t.readers == s.readers
      && (forall i :: i != e.ih ==> Queue(t.queues, i) == Queue(s.queues, i))
      && Queue(t.queues, e.ih) ==
         if e.StartLoad? then Queue(s.queues, e.ih) + [Acquire(e.pk)] else Queue(s.queues, e.ih)[1..]
  {
    hide BookOk, QueuesOk, Counted;
  }

  // ---- destruction ------------------------------------------------------------------------------------------------

  /** An idle record leaves `refs`, its torrent is closed and its removal starts; a used one is left alone. */
  ghost predicate Decided(s: State, t: State, ih: Ih)
    requires |Queue(s.queues, ih)| > 0 && Queue(s.queues, ih)[0].Check?
  {
    var r := Queue(s.queues, ih)[0].ref;
    && r in s.b.recs && s.b.recs[r].torrent in s.b.torrents && t.readers == s.readers
    && if s.b.recs[r].readers == 0 && s.b.recs[r].retainedBy == {} then
         Destroyed(s.b, t.b, r) && t.queues == s.queues[ih := Queue(s.queues, ih)[0 := Removing(r)]]
       else t.b == s.b && t.queues == s.queues[ih := Queue(s.queues, ih)[1..]]
  }

  lemma DestroyCheckEffect(s: State, ih: Ih)
    requires Core(s) && |Queue(s.queues, ih)| > 0 && Queue(s.queues, ih)[0].Check?
    ensures Decided(s, CheckStep(s, ih), ih)
  {
    CheckBook(s, ih);
    assert Named(s.b) && Queued(s.b, s.queues);
    hide Core, Destroy;
    var r := Queue(s.queues, ih)[0].ref;
    DestroyBook(s.b, r);
    hide Destroyed, Named, Queued;
  }

  /** r's torrent is closed and no infohash names r; nothing else changes. */
  ghost predicate Destroyed(b: Book, c: Book, r: Ref)
    requires r in b.recs && b.recs[r].torrent in b.torrents
  {
    && c.recs == b.recs && c.current == b.current && c.dirs == b.dirs && c.gens == b.gens
    && c.torrents == b.torrents[b.recs[r].torrent := b.torrents[b.recs[r].torrent].(closed := true)]
    && (forall i :: i in c.refs <==> i in b.refs && b.refs[i] != r)
    && (forall i :: i in c.refs ==> c.refs[i] == b.refs[i])
  }

  lemma DestroyBook(b: Book, r: Ref)
    requires Named(b) && r in b.recs && b.recs[r].torrent in b.torrents
    ensures Destroyed(b, Destroy(b, r), r)
  {}

  /** The generation's directory is gone, unless removing it failed; nothing else changes. */
  ghost predicate Finished(s: State, t: State, ih: Ih, removed: bool)
    requires |Queue(s.queues, ih)| > 0 && Queue(s.queues, ih)[0].Removing?
  {
    var r := Queue(s.queues, ih)[0].ref;
    && r in s.b.recs && t.readers == s.readers && t.queues == s.queues[ih := Queue(s.queues, ih)[1..]]
    && t.b == s.b.(dirs := if removed then s.b.dirs - {s.b.recs[r].gen} else s.b.dirs)
  }

  lemma DestroyDoneEffect(s: State, ih: Ih, removed: bool)
    requires Core(s) && |Queue(s.queues, ih)| > 0 && Queue(s.queues, ih)[0].Removing?
    ensures Finished(s, DoneStep(s, ih, removed), ih, removed)
  {
    HeadOwned(s, ih);
    hide Heads, DistinctHeads, Counted, BookOk;
  }

  /** What the world outside does. */
  lemma OutsideEffect(s: State, e: Event, max: nat)
    requires Core(s) && Enabled(s, e) && (e.Opened? || e.Closed?)
    ensures var torrent := Torrent(if e.Opened? then e.ih else s.b.torrents[e.t].ih, e.Closed?);
      Next(s, e, max) == s.(b := s.b.(torrents := s.b.torrents[e.t := torrent]))
  {
    NextOf(s, e, max);
    hide Core, Next, Enabled;
  }

  // ---- borrowed records ---------------------------------------------------------------------------------------------

  /** No infohash names a borrowed record that nobody uses. */
  ghost predicate BorrowedInUse(b: Book) {
    forall ih :: ih in b.refs && b.refs[ih] in b.recs && !b.recs[b.refs[ih]].owned ==> !Idle(b, b.refs[ih])
  }

  /** A borrowed record that is idle and named was so before. */
  ghost predicate NoneLeftIdle(b: Book, c: Book) {
    forall ih :: ih in c.refs && Idle(c, c.refs[ih]) && !c.recs[c.refs[ih]].owned ==>
      ih in b.refs && b.refs[ih] == c.refs[ih] && Idle(b, b.refs[ih]) && !b.recs[b.refs[ih]].owned
  }

  lemma LeftIdleTwice(b: Book, c: Book, d: Book)
    requires NoneLeftIdle(b, c) && NoneLeftIdle(c, d)
    ensures NoneLeftIdle(b, d)
  {}

  lemma MaybeDestroyRefs(s: State, r: Ref)
    requires Named(s.b) && r in s.b.recs
    ensures var c := MaybeDestroy(s, r).b;
      && c.recs == s.b.recs && (forall ih :: ih in c.refs ==> ih in s.b.refs && c.refs[ih] == s.b.refs[ih])
      && (Idle(s.b, r) && !s.b.recs[r].owned ==> forall ih :: ih in c.refs ==> c.refs[ih] != r)
  {}

  /** One record lost a user; if it was borrowed and that was the last, it is forgotten. */
  lemma DestroyLeavesNone(b: Book, u: State, r: Ref)
    requires Named(u.b) && r in u.b.recs
    requires forall ih :: ih in u.b.refs ==> ih in b.refs && b.refs[ih] == u.b.refs[ih]
    requires forall q :: q in u.b.recs && q != r ==> q in b.recs && b.recs[q] == u.b.recs[q]
    ensures NoneLeftIdle(b, MaybeDestroy(u, r).b)
  {
    MaybeDestroyRefs(u, r);
    hide MaybeDestroy, Named;
  }

  lemma CappedLeavesNone(u: State, t: State, max: nat)
    requires Capped(u, t, max) && Named(u.b)
    ensures NoneLeftIdle(u.b, t.b)
  {}

  lemma LeaveLeavesNone(s: State, pk: Pk)
    requires Named(s.b)
    ensures NoneLeftIdle(s.b, Leave(s, pk).b)
  {
    if pk in s.b.current {
      UnholdNamed(s.b, pk);
      DestroyLeavesNone(s.b, s.(b := Unhold(s.b, pk)), s.b.current[pk]);
      hide MaybeDestroy;
    }
  }

  lemma UnholdNamed(b: Book, pk: Pk)
    requires Named(b) && pk in b.current
    ensures Named(Unhold(b, pk))
  {}

  lemma HoldLeavesNone(b: Book, pk: Pk, r: Ref, now: nat)
    requires r in b.recs
    ensures NoneLeftIdle(b, Hold(b, pk, r, now))
  {}

  lemma RepointLeavesNone(s: State, pk: Pk, r: Ref, now: nat)
    requires Named(s.b) && r in s.b.recs
    ensures NoneLeftIdle(s.b, Repoint(s, pk, r, now).b)
  {
    LeaveLeavesNone(s, pk);
    hide Named, Leave, Hold, NoneLeftIdle;
    var u := Leave(s, pk);
    HoldLeavesNone(u.b, pk, r, now);
    LeftIdleTwice(s.b, u.b, Repoint(s, pk, r, now).b);
  }

  lemma CapLeavesNone(s: State, u: State, order: seq<Ref>, max: nat)
    requires NoneLeftIdle(s.b, u.b) && ByUse(u.b, order) && Retention(u.b) && Named(u.b)
    ensures NoneLeftIdle(s.b, Cap(u, order, max).b)
  {
    hide NoneLeftIdle, ByUse, Retention, Named, Cap, Capped;
    CapIsCapped(u, order, max);
    CappedLeavesNone(u, Cap(u, order, max), max);
    LeftIdleTwice(s.b, u.b, Cap(u, order, max).b);
  }

  lemma NoneLeftSame(b: Book)
    ensures NoneLeftIdle(b, b)
  {}

  lemma RetainLeavesNone(s: State, h: nat, now: nat, order: seq<Ref>, max: nat)
    requires Core(s) && Enabled(s, Retain(h, now, order))
    ensures NoneLeftIdle(s.b, Next(s, Retain(h, now, order), max).b)
  {
    var pk, r := s.readers[h].pk, s.readers[h].ref;
    RetainNext(s, h, now, order, max);
    HeldByLoad(s, h);
    NoneLeftSame(s.b);
    assert Retention(s.b) && Named(s.b);
    hide Core, Next, Enabled, Cap, ByUse, Moved, Retention, Named, NoneLeftIdle, Repoint;
    if !Current(s, h) {
      var u := Repoint(s, pk, r, now);
      RepointLeavesNone(s, pk, r, now);
      RepointMoved(s, pk, r, now);
      MovedRetention(s, u, pk, r, now);
      CapLeavesNone(s, u, order, max);
    }
  }

  lemma LetGoNamed(s: State, h: nat, r: Ref)
    requires Named(s.b) && Retention(s.b) && h in s.readers && s.readers[h].ref == r && r in s.b.recs
      && s.b.recs[r].readers > 0
    ensures Named(LetGo(s, h).b) && Retention(LetGo(s, h).b)
  {
    LetGoBook(s, h, r);
    hide LetGo, OwnedLive;
    DropRetention(s.b, LetGo(s, h).b);
  }

  lemma ReleaseLeavesNone(s: State, h: nat, order: seq<Ref>, max: nat)
    requires Core(s) && Enabled(s, Release(h, order))
    ensures NoneLeftIdle(s.b, Next(s, Release(h, order), max).b)
  {
    ReleaseNext(s, h, order, max);
    assert Named(s.b) && Retention(s.b);
    hide Core, Next, Enabled, LetGo, Cap, ByUse, Retention, Named, NoneLeftIdle;
    LetGoNamed(s, h, s.readers[h].ref);
    LetGoLeavesNone(s, h, s.readers[h].ref);
    CapLeavesNone(s, LetGo(s, h), order, max);
  }

  lemma LetGoLeavesNone(s: State, h: nat, r: Ref)
    requires Named(s.b) && h in s.readers && s.readers[h].ref == r && r in s.b.recs && s.b.recs[r].readers > 0
    ensures NoneLeftIdle(s.b, LetGo(s, h).b)
  {
    DestroyLeavesNone(s.b, s.(b := Drop(s.b, r), readers := s.readers - {h}), r);
    hide MaybeDestroy;
  }

  /** A record the load has just got is in use. */
  lemma AcquiredLeavesNone(s: State, t: State, ih: Ih, r: Ref, c: Rec)
    requires Acquired(s, t, ih, r, c) && c.readers > 0 && (forall i :: i in s.b.refs && s.b.refs[i] == r ==> i == ih)
    ensures NoneLeftIdle(s.b, t.b)
  {}

  lemma ForgottenLeavesNone(b: Book, c: Book, r: Ref)
    requires forall ih :: ih in c.refs ==> ih in b.refs && c.refs[ih] == b.refs[ih] && c.refs[ih] != r
    requires forall q :: q in c.recs && q != r ==> q in b.recs && b.recs[q] == c.recs[q]
    ensures NoneLeftIdle(b, c)
  {}

  lemma StaleLeavesNone(s: State, ih: Ih, now: nat)
    requires Core(s) && Waiting(s, ih) && Head(s, ih).Acquire? && !(ih in s.b.refs && Live(s.b, s.b.refs[ih]))
    ensures NoneLeftIdle(s.b, BeginStep(s, ih, now).b)
  {
    assert Named(s.b);
    AcquireStale(s, ih, now);
    var t := BeginStep(s, ih, now);
    hide Core, BeginStep, NoneLeftIdle, Live, ClearedQueue;
    if ih in s.b.refs {
      ForgottenLeavesNone(s.b, t.b, s.b.refs[ih]);
    } else {
      assert t.b.recs == s.b.recs;
      SameLeavesNone(s.b, t.b);
    }
  }

  lemma BeginLeavesNone(s: State, ih: Ih, now: nat)
    requires Core(s) && Waiting(s, ih) && Head(s, ih).Acquire?
    ensures NoneLeftIdle(s.b, BeginStep(s, ih, now).b)
  {
    if ih in s.b.refs && Live(s.b, s.b.refs[ih]) {
      assert Named(s.b);
      AcquireLive(s, ih, now);
      var r := s.b.refs[ih];
      hide Core, BeginStep, Acquired, Live, NoneLeftIdle;
      AcquiredLeavesNone(s, BeginStep(s, ih, now), ih, r,
        s.b.recs[r].(readers := s.b.recs[r].readers + 1, lastUse := now));
    } else {
      hide Core, BeginStep, NoneLeftIdle;
      StaleLeavesNone(s, ih, now);
    }
  }

  lemma FoundLeavesNone(s: State, e: Event, max: nat)
    requires Core(s) && Enabled(s, e) && (e.AcquireFound? || e.AcquireAdded?)
    ensures NoneLeftIdle(s.b, Next(s, e, max).b)
  {
    assert Named(s.b);
    NotYet(s, e);
    if e.AcquireFound? {
      AcquireFoundEffect(s, e.ih, e.t, e.r, e.now, max);
      hide Core, Next, Enabled, Acquired;
      AcquiredLeavesNone(s, Next(s, e, max), e.ih, e.r, Rec(e.ih, e.t, false, 0, 1, {}, e.now));
    } else {
      AcquireAddedEffect(s, e.ih, e.t, e.r, e.now, max);
      hide Core, Next, Enabled, Acquired;
      var c := Rec(e.ih, e.t, true, Queue(s.queues, e.ih)[0].gen, 1, {}, e.now);
      AcquiredLeavesNone(s, Next(s, e, max), e.ih, e.r, c);
    }
  }

  lemma NotYet(s: State, e: Event)
    requires Core(s) && Enabled(s, e) && (e.AcquireFound? || e.AcquireAdded?)
    ensures e.r !in s.b.recs
  {
    hide Core;
  }

  lemma SameLeavesNone(b: Book, c: Book)
    requires c.recs == b.recs && forall ih :: ih in c.refs ==> ih in b.refs && c.refs[ih] == b.refs[ih]
    ensures NoneLeftIdle(b, c)
  {}

  lemma WaitingLeavesNone(s: State, e: Event, max: nat)
    requires Core(s) && Enabled(s, e) && (e.StartLoad? || e.AcquireAborted? || e.AcquireFailed? || e.AcquireMissing?)
    ensures NoneLeftIdle(s.b, Next(s, e, max).b)
  {
    if e.AcquireMissing? { AcquireMissingEffect(s, e.ih, max); } else { QueueEffect(s, e, max); }
    hide Core, Next, Enabled, NoneLeftIdle;
    SameLeavesNone(s.b, Next(s, e, max).b);
  }

  lemma AcquiringLeavesNone(s: State, e: Event, max: nat)
    requires Core(s) && Enabled(s, e) && Acquiring(e)
    ensures NoneLeftIdle(s.b, Next(s, e, max).b)
  {
    if e.AcquireBegin? {
      assert Waiting(s, e.ih) && Head(s, e.ih).Acquire? && Next(s, e, max) == BeginStep(s, e.ih, e.now) by {
        BeginNext(s, e.ih, e.now, max);
      }
      hide Core, Next, Enabled, BeginStep, NoneLeftIdle;
      BeginLeavesNone(s, e.ih, e.now);
    } else if e.AcquireFound? || e.AcquireAdded? {
      hide Core, Next, Enabled, NoneLeftIdle;
      FoundLeavesNone(s, e, max);
    } else {
      hide Core, Next, Enabled, NoneLeftIdle;
      WaitingLeavesNone(s, e, max);
    }
  }

  lemma BeginNext(s: State, ih: Ih, now: nat, max: nat)
    requires Core(s) && Enabled(s, AcquireBegin(ih, now))
    ensures Waiting(s, ih) && Head(s, ih).Acquire? && (ih in s.b.refs ==> s.b.refs[ih] in s.b.recs)
    ensures Next(s, AcquireBegin(ih, now), max) == BeginStep(s, ih, now)
  {
    if ih in s.b.refs { RefKnown(s, ih); }
    hide Core, BeginStep;
  }

  lemma TouchLeavesNone(s: State, pk: Pk, ih: Ih, now: nat)
    requires Core(s)
    ensures NoneLeftIdle(s.b, TouchStep(s, pk, ih, now).b)
  {
    assert Named(s.b);
    hide Core;
  }

  lemma TorrentsLeaveNone(s: State, e: Event, max: nat)
    requires Core(s) && Enabled(s, e) && !Acquiring(e) && !Using(e)
    ensures NoneLeftIdle(s.b, Next(s, e, max).b)
  {
    NextOf(s, e, max);
    if e.DestroyCheck? { DestroyCheckEffect(s, e.ih); }
    if e.DestroyDone? { DestroyDoneEffect(s, e.ih, e.removed); }
    hide Core, Next, Enabled, CheckStep, DoneStep, NoneLeftIdle;
    SameLeavesNone(s.b, Next(s, e, max).b);
  }

  lemma StepLeavesNone(s: State, e: Event, max: nat)
    requires Core(s) && Enabled(s, e)
    ensures NoneLeftIdle(s.b, Next(s, e, max).b)
  {
    if Acquiring(e) {
      hide Core, Next, Enabled, NoneLeftIdle;
      AcquiringLeavesNone(s, e, max);
    } else if !Using(e) {
      hide Core, Next, Enabled, NoneLeftIdle;
      TorrentsLeaveNone(s, e, max);
    } else {
      assert Named(s.b);
      NextOf(s, e, max);
      hide Core, Next, Enabled, TouchStep, Leave, NoneLeftIdle;
      NoneLeftSame(s.b);
      match e
      case Retain(h, now, order) => RetainLeavesNone(s, h, now, order, max);
      case Release(h, order) => ReleaseLeavesNone(s, h, order, max);
      case Retire(pk, only) => LeaveLeavesNone(s, pk);
      case Touched(pk, ih, now) => TouchLeavesNone(s, pk, ih, now);
    }
  }

  lemma {:induction false} RunLeavesNone(s: State, es: seq<Event>, t: State, max: nat)
    requires Inv(s, max) && Reaches(s, es, t, max) && BorrowedInUse(s.b)
    ensures BorrowedInUse(t.b)
    decreases es
  {
    if es == [] {
      assert s == t;
    } else {
      StepKeeps(s, es[0], max);
      StepLeavesNone(s, es[0], max);
      StillInUse(s.b, Next(s, es[0], max).b);
      hide Inv, Core, Enabled, Next, NoneLeftIdle, BorrowedInUse;
      RunLeavesNone(Next(s, es[0], max), es[1..], t, max);
    }
  }

  lemma StillInUse(b: Book, c: Book)
    requires BorrowedInUse(b) && NoneLeftIdle(b, c)
    ensures BorrowedInUse(c)
  {}

  /** In every reachable state a torrent borrowed from the client is named only while somebody uses it. */
  lemma BorrowedForgotten(es: seq<Event>, t: State, max: nat)
    requires Reaches(Initial(), es, t, max)
    ensures BorrowedInUse(t.b)
  {
    InitialOk(max);
    assert BorrowedInUse(Initial().b);
    hide Inv, BorrowedInUse, Initial;
    RunLeavesNone(Initial(), es, t, max);
  }
}
