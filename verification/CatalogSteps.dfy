/**
 Every step of the catalog torrent lifecycle (src/node.ts:1166-1299): what runs between two awaits, plus the
 outside world opening and closing torrents.  Any sequence of enabled steps is a run.
 */
module CatalogSteps {
  import opened Options
  import opened CatalogBook
  import opened CatalogQueues
  import opened CatalogCap

  datatype Event =
    | StartLoad(pk: Pk, ih: Ih)
    | AcquireAborted(ih: Ih)
    | AcquireBegin(ih: Ih, now: nat)
    | AcquireFound(ih: Ih, t: Tor, r: Ref, now: nat)
    | AcquireMissing(ih: Ih)
    | AcquireAdded(ih: Ih, t: Tor, r: Ref, now: nat)
    | AcquireFailed(ih: Ih)
    | Retain(h: nat, now: nat, order: seq<Ref>)
    | Release(h: nat, order: seq<Ref>)
    | Retire(pk: Pk, only: Option<Ih>)
    | Touched(pk: Pk, ih: Ih, now: nat)
    | DestroyCheck(ih: Ih)
    | DestroyDone(ih: Ih, removed: bool)
    | Opened(t: Tor, ih: Ih)
    | Closed(t: Tor)

  // ---- blocks ---------------------------------------------------------------------------------------

  function Unregister(b: Book, ih: Ih): Book { b.(refs := b.refs - {ih}) }

  function Close(b: Book, t: Tor): Book
    requires t in b.torrents
  {
    b.(torrents := b.torrents[t := b.torrents[t].(closed := true)])
  }

  function Open(b: Book, t: Tor, ih: Ih): Book { b.(torrents := b.torrents[t := Torrent(ih, false)]) }

  /** acquire finds a record: its own when the torrent is alive; a stale one is detached and forgotten. */
  function Admit(s: State, r: Ref, pk: Pk, now: nat): State
    requires r in s.b.recs
  {
    s.(b := Use(s.b, r, now), readers := s.readers[s.nextReader := Reader(pk, r)], nextReader := s.nextReader + 1)
  }

  function DetachStale(s: State, ih: Ih): State
    requires ih in s.b.refs ==> s.b.refs[ih] in s.b.recs
  {
    if ih !in s.b.refs then s
    else var r := s.b.refs[ih]; MaybeDestroy(s.(b := Unregister(Detach(s.b, r), ih)), r)
  }

  /** A record of a torrent this node did not have yet, with its first reader. */
  function Enrol(s: State, r: Ref, c: Rec, pk: Pk): State {
    s.(b := Register(s.b, r, c), readers := s.readers[s.nextReader := Reader(pk, r)], nextReader := s.nextReader + 1)
  }

  function Borrowed(ih: Ih, t: Tor, now: nat): Rec { Rec(ih, t, false, 0, 1, {}, now) }
  function Owned(ih: Ih, t: Tor, gen: nat, now: nat): Rec { Rec(ih, t, true, gen, 1, {}, now) }

  /** The publisher's previous catalog loses its retention. */
  function Leave(s: State, pk: Pk): State
    requires pk in s.b.current ==> s.b.current[pk] in s.b.recs
  {
    if pk in s.b.current then MaybeDestroy(s.(b := Unhold(s.b, pk)), s.b.current[pk]) else s
  }

  function Repoint(s: State, pk: Pk, r: Ref, now: nat): State
    requires r in s.b.recs && (pk in s.b.current ==> s.b.current[pk] in s.b.recs)
  {
    var s1 := Leave(s, pk);
    s1.(b := Hold(s1.b, pk, r, now))
  }

  function LetGo(s: State, h: nat): State
    requires h in s.readers && s.readers[h].ref in s.b.recs && s.b.recs[s.readers[h].ref].readers > 0
  {
    var r := s.readers[h].ref;
    MaybeDestroy(s.(b := Drop(s.b, r), readers := s.readers - {h}), r)
  }

  /** The queued destruction runs: an idle record leaves `refs` and its torrent is destroyed. */
  function Destroy(b: Book, r: Ref): Book
    requires r in b.recs && b.recs[r].torrent in b.torrents
  {
    Close(Forget(b, r), b.recs[r].torrent)
  }

  // ---- steps -----------------------------------------------------------------------------------------

  ghost predicate Enabled(s: State, e: Event)
    requires Core(s)
  {
    match e
    case StartLoad(_, _) => true
    case AcquireAborted(ih) => Waiting(s, ih) && Head(s, ih).Acquire?
    case AcquireBegin(ih, _) => Waiting(s, ih) && Head(s, ih).Acquire?
    case AcquireFound(ih, t, r, _) =>
      Waiting(s, ih) && Head(s, ih).Getting? && t in s.b.torrents && s.b.torrents[t] == Torrent(ih, false)
        && r !in s.b.recs
    case AcquireMissing(ih) => Waiting(s, ih) && Head(s, ih).Getting?
    case AcquireAdded(ih, t, r, _) => Waiting(s, ih) && Head(s, ih).Making? && t !in s.b.torrents && r !in s.b.recs
    case AcquireFailed(ih) => Waiting(s, ih) && (Head(s, ih).Getting? || Head(s, ih).Making?)
    case Retain(h, now, order) =>
      h in s.readers && (Current(s, h) || ByUse(Repoint(s, s.readers[h].pk, s.readers[h].ref, now).b, order))
    case Release(h, order) => h in s.readers && (Holds(s, h); ByUse(LetGo(s, h).b, order))
    case Retire(_, _) => true
    case Touched(_, _, _) => true
    case DestroyCheck(ih) => Waiting(s, ih) && Head(s, ih).Check?
    case DestroyDone(ih, _) => Waiting(s, ih) && Head(s, ih).Removing?
    case Opened(t, _) => t !in s.b.torrents
    case Closed(t) => t in s.b.torrents
  }

  predicate Current(s: State, h: nat)
    requires h in s.readers
  {
    s.readers[h].pk in s.b.current && s.b.current[s.readers[h].pk] == s.readers[h].ref
  }

  /** A load holds the record it acquired. */
  lemma Holds(s: State, h: nat)
    requires Counted(s.b, s.readers) && h in s.readers
    ensures s.readers[h].ref in s.b.recs && s.b.recs[s.readers[h].ref].readers > 0
  {
    assert h in Holders(s.readers, s.readers[h].ref);
  }

  function BeginStep(s: State, ih: Ih, now: nat): State
    requires Waiting(s, ih) && Head(s, ih).Acquire? && (ih in s.b.refs ==> s.b.refs[ih] in s.b.recs)
  {
    if ih in s.b.refs && Live(s.b, s.b.refs[ih]) then Admit(Pop(s, ih), s.b.refs[ih], Head(s, ih).pk, now)
    else BeginGetting(s, ih)
  }

  ghost function RetireStep(s: State, pk: Pk, only: Option<Ih>): State
    requires Named(s.b)
  {
    if pk in s.b.current && (only.Some? ==> s.b.recs[s.b.current[pk]].ih == only.value) then Leave(s, pk) else s
  }

  ghost function TouchStep(s: State, pk: Pk, ih: Ih, now: nat): State
    requires Named(s.b)
  {
    if pk in s.b.current && s.b.recs[s.b.current[pk]].ih == ih then s.(b := Touch(s.b, s.b.current[pk], now)) else s
  }

  ghost function CheckStep(s: State, ih: Ih): State
    requires Named(s.b) && Queued(s.b, s.queues) && Waiting(s, ih) && Head(s, ih).Check?
  {
    var r := Head(s, ih).ref;
    if Idle(s.b, r) then Advance(s.(b := Destroy(s.b, r)), ih, Removing(r)) else Pop(s, ih)
  }

  ghost function DoneStep(s: State, ih: Ih, removed: bool): State
    requires Queued(s.b, s.queues) && Waiting(s, ih) && Head(s, ih).Removing?
  {
    var s1 := Pop(s, ih);
    if removed then s1.(b := s1.b.(dirs := s1.b.dirs - {s.b.recs[Head(s, ih).ref].gen})) else s1
  }

  function AddedStep(s: State, ih: Ih, t: Tor, r: Ref, now: nat): State
    requires Waiting(s, ih) && Head(s, ih).Making?
  {
    Enrol(Pop(Downloading(s, ih, t), ih), r, Owned(ih, t, Head(s, ih).gen, now), Head(s, ih).pk)
  }

  ghost function RetainStep(s: State, h: nat, now: nat, order: seq<Ref>, max: nat): State
    requires Core(s) && Enabled(s, Retain(h, now, order))
  {
    if Current(s, h) then s else Cap(Repoint(s, s.readers[h].pk, s.readers[h].ref, now), order, max)
  }

  ghost function ReleaseStep(s: State, h: nat, order: seq<Ref>, max: nat): State
    requires Core(s) && Enabled(s, Release(h, order))
  {
    Holds(s, h); Cap(LetGo(s, h), order, max)
  }

  ghost function Next(s: State, e: Event, max: nat): State
    requires Core(s) && Enabled(s, e)
  {
    match e
    case StartLoad(pk, ih) => s.(queues := Enqueue(s.queues, ih, Acquire(pk)))
    case AcquireAborted(ih) => Pop(s, ih)
    case AcquireBegin(ih, now) => BeginStep(s, ih, now)
    case AcquireFound(ih, t, r, now) => Enrol(Pop(s, ih), r, Borrowed(ih, t, now), Head(s, ih).pk)
    case AcquireMissing(ih) =>
      Advance(s.(b := s.b.(gens := s.b.gens + 1)), ih, Making(Head(s, ih).pk, s.b.gens + 1))
    case AcquireAdded(ih, t, r, now) => AddedStep(s, ih, t, r, now)
    case AcquireFailed(ih) => Pop(s, ih)
    case Retain(h, now, order) => RetainStep(s, h, now, order, max)
    case Release(h, order) => ReleaseStep(s, h, order, max)
    case Retire(pk, only) => RetireStep(s, pk, only)
    case Touched(pk, ih, now) => TouchStep(s, pk, ih, now)
    case DestroyCheck(ih) => CheckStep(s, ih)
    case DestroyDone(ih, removed) => DoneStep(s, ih, removed)
    case Opened(t, ih) => s.(b := Open(s.b, t, ih))
    case Closed(t) => s.(b := Close(s.b, t))
  }

  /** A stale record is out of the way before the client is asked for the torrent. */
  function BeginGetting(s: State, ih: Ih): State
    requires Waiting(s, ih) && Head(s, ih).Acquire? && (ih in s.b.refs ==> s.b.refs[ih] in s.b.recs)
  {
    StaleWaits(s, ih);
    Advance(DetachStale(s, ih), ih, Getting(Head(s, ih).pk))
  }

  lemma StaleWaits(s: State, ih: Ih)
    requires Waiting(s, ih) && (ih in s.b.refs ==> s.b.refs[ih] in s.b.recs)
    ensures Waiting(DetachStale(s, ih), ih) && Head(DetachStale(s, ih), ih) == Head(s, ih)
  {}

  /** The generation directory exists and the client has the torrent. */
  function Downloading(s: State, ih: Ih, t: Tor): State
    requires Waiting(s, ih) && Head(s, ih).Making?
  {
    s.(b := Open(s.b, t, ih).(dirs := s.b.dirs + {Head(s, ih).gen}))
  }

  ghost predicate Inv(s: State, max: nat) {
    Core(s) && NoLeakBut(s.b, s.queues, {}) && |Parked(s.b)| <= max
  }

  // ---- the blocks keep the invariant -----------------------------------------------------------------

  lemma CountedSame(b: Book, c: Book, readers: map<nat, Reader>)
    requires Counted(b, readers) && c.recs.Keys == b.recs.Keys
    requires forall r :: r in b.recs ==> c.recs[r].readers == b.recs[r].readers
    ensures Counted(c, readers)
  {}

  lemma StartOk(s: State, pk: Pk, ih: Ih)
    requires Core(s) && NoLeakBut(s.b, s.queues, {})
    ensures Core(s.(queues := Enqueue(s.queues, ih, Acquire(pk))))
      && NoLeakBut(s.b, Enqueue(s.queues, ih, Acquire(pk)), {})
  {
    StartQueues(s.b, s.queues, pk, ih);
    StartLeak(s.b, s.queues, pk, ih);
    hide BookOk, QueuesOk, NoLeakBut, Counted;
  }

  lemma StartQueues(b: Book, q: Queues, pk: Pk, ih: Ih)
    requires QueuesOk(b, q)
    ensures QueuesOk(b, Enqueue(q, ih, Acquire(pk)))
  {
    var q' := Enqueue(q, ih, Acquire(pk));
    assert forall i :: i != ih ==> Queue(q', i) == Queue(q, i);
    assert Queue(q', ih) == Queue(q, ih) + [Acquire(pk)];
  }

  lemma StartLeak(b: Book, q: Queues, pk: Pk, ih: Ih)
    requires NoLeakBut(b, q, {})
    ensures NoLeakBut(b, Enqueue(q, ih, Acquire(pk)), {})
  {
    var q' := Enqueue(q, ih, Acquire(pk));
    assert forall i :: i != ih ==> Queue(q', i) == Queue(q, i);
    assert Queue(q', ih) == Queue(q, ih) + [Acquire(pk)];
  }

  lemma AdmitOk(s: State, r: Ref, pk: Pk, now: nat)
    requires Core(s) && NoLeakBut(s.b, s.queues, {}) && Live(s.b, r) && InRefs(s.b, r)
    ensures Core(Admit(s, r, pk, now)) && NoLeakBut(Admit(s, r, pk, now).b, s.queues, {})
  {
    hide BookOk, QueuesOk, NoLeakBut, Counted, Use, InRefs;
    UseOk(s.b, s.queues, r, now, {});
    AddHolder(s.b, s.readers, s.nextReader, pk, r, now);
  }

  lemma UnregisterOk(b: Book, q: Queues, ih: Ih, x: set<Ref>)
    requires BookOk(b) && QueuesOk(b, q) && NoLeakBut(b, q, x) && (ih in b.refs ==> !Live(b, b.refs[ih]))
    ensures BookOk(Unregister(b, ih)) && QueuesOk(Unregister(b, ih), q) && NoLeakBut(Unregister(b, ih), q, x)
  {
    UnregisterNames(b, ih);
    UnregisterQueues(b, q, ih);
    UnregisterRecs(b, ih);
    UnregisterLeak(b, q, ih, x);
    hide Named, Registered, Retention, Exclusive, QueuesOk, NoLeakBut;
  }

  lemma UnregisterRecs(b: Book, ih: Ih)
    requires Retention(b) && Exclusive(b)
    ensures Retention(Unregister(b, ih)) && Exclusive(Unregister(b, ih))
  {}

  lemma UnregisterLeak(b: Book, q: Queues, ih: Ih, x: set<Ref>)
    requires NoLeakBut(b, q, x)
    ensures NoLeakBut(Unregister(b, ih), q, x)
  {}

  lemma UnregisterNames(b: Book, ih: Ih)
    requires Named(b) && Registered(b) && (ih in b.refs ==> !Live(b, b.refs[ih]))
    ensures Named(Unregister(b, ih)) && Registered(Unregister(b, ih))
  {}

  lemma UnregisterQueues(b: Book, q: Queues, ih: Ih)
    requires QueuesOk(b, q)
    ensures QueuesOk(Unregister(b, ih), q)
  {
    hide DistinctHeads;
    forall i | |Queue(q, i)| > 0
      ensures HeadHolds(Unregister(b, ih), i, Queue(q, i)[0])
    {
      assert HeadHolds(b, i, Queue(q, i)[0]);
    }
  }

  lemma DetachStaleOk(s: State, ih: Ih)
    requires Core(s) && NoLeakBut(s.b, s.queues, {}) && (ih in s.b.refs ==> !Live(s.b, s.b.refs[ih]))
    ensures Core(DetachStale(s, ih)) && NoLeakBut(DetachStale(s, ih).b, DetachStale(s, ih).queues, {})
    ensures ih !in DetachStale(s, ih).b.refs
  {
    if ih in s.b.refs {
      var r := s.b.refs[ih];
      StaleDetached(s, r, ih);
      hide Core, NoLeakBut;
      MaybeDestroyOk(s.(b := Unregister(Detach(s.b, r), ih)), r, {r});
      assert {r} - {r} == {};
    }
  }

  lemma StaleDetached(s: State, r: Ref, ih: Ih)
    requires Core(s) && NoLeakBut(s.b, s.queues, {}) && r in s.b.recs && (ih in s.b.refs ==> !Live(s.b, s.b.refs[ih]))
    ensures Core(s.(b := Unregister(Detach(s.b, r), ih))) && NoLeakBut(Unregister(Detach(s.b, r), ih), s.queues, {r})
  {
    hide BookOk, QueuesOk, NoLeakBut;
    var b1 := Detach(s.b, r);
    DetachOk(s.b, s.queues, r, {});
    assert {} + {r} == {r};
    UnregisterOk(b1, s.queues, ih, {r});
    CountedSame(s.b, Unregister(b1, ih), s.readers);
  }

  lemma BeginOk(s: State, ih: Ih, now: nat)
    requires Core(s) && NoLeakBut(s.b, s.queues, {}) && Waiting(s, ih) && Head(s, ih).Acquire?
    ensures Core(BeginStep(s, ih, now)) && NoLeakBut(BeginStep(s, ih, now).b, BeginStep(s, ih, now).queues, {})
  {
    assert ih in s.b.refs ==> s.b.refs[ih] in s.b.recs && InRefs(s.b, s.b.refs[ih]);
    assert {} + Subject(Head(s, ih)) == {};
    if ih in s.b.refs && Live(s.b, s.b.refs[ih]) {
      hide Core, NoLeakBut, Pop, InRefs;
      PopCore(s, ih, {});
      PopBook(s, ih);
      AdmitOk(Pop(s, ih), s.b.refs[ih], Head(s, ih).pk, now);
    } else {
      hide Core, NoLeakBut, DetachStale;
      DetachStaleOk(s, ih);
      StaleWaits(s, ih);
      AdvanceCore(DetachStale(s, ih), ih, Getting(Head(s, ih).pk), {});
      AdvanceBook(DetachStale(s, ih), ih, Getting(Head(s, ih).pk));
    }
  }

  lemma PopBook(s: State, ih: Ih)
    requires Waiting(s, ih)
    ensures Pop(s, ih).b == s.b && Pop(s, ih).readers == s.readers && Pop(s, ih).nextReader == s.nextReader
  {}

  lemma AdvanceBook(s: State, ih: Ih, t: Task)
    requires Waiting(s, ih)
    ensures Advance(s, ih, t).b == s.b && Advance(s, ih, t).readers == s.readers
      && Advance(s, ih, t).nextReader == s.nextReader
  {}

  // ---- new records ------------------------------------------------------------------------------------

  lemma EnrolOk(s: State, r: Ref, c: Rec, pk: Pk)
    requires Core(s) && NoLeakBut(s.b, s.queues, {})
    requires BookOk(Register(s.b, r, c)) && QueuesOk(Register(s.b, r, c), s.queues) && r !in s.b.recs && c.readers == 1
    ensures Core(Enrol(s, r, c, pk)) && NoLeakBut(Enrol(s, r, c, pk).b, s.queues, {})
  {
    var b := Register(s.b, r, c);
    assert NoLeakBut(b, s.queues, {}) by { RegisterLeak(s.b, s.queues, r, c); }
    assert Counted(b, s.readers[s.nextReader := Reader(pk, r)]) by { RegisterCounted(s, r, c, pk); }
    hide BookOk, QueuesOk, NoLeakBut, Counted, Register;
  }

  lemma RegisterLeak(b: Book, q: Queues, r: Ref, c: Rec)
    requires NoLeakBut(b, q, {}) && r !in b.recs && c.readers == 1
    ensures NoLeakBut(Register(b, r, c), q, {})
  {}

  lemma RegisterCounted(s: State, r: Ref, c: Rec, pk: Pk)
    requires Counted(s.b, s.readers) && r !in s.b.recs && c.readers == 1 && s.nextReader !in s.readers
    ensures Counted(Register(s.b, r, c), s.readers[s.nextReader := Reader(pk, r)])
  {
    var readers := s.readers[s.nextReader := Reader(pk, r)];
    assert Holders(readers, r) == {s.nextReader};
    assert forall q :: q != r ==> Holders(readers, q) == Holders(s.readers, q);
  }

  /** No queue's running operation minds a new record of another infohash and another generation. */
  lemma RegisterQueues(b: Book, q: Queues, r: Ref, c: Rec)
    requires QueuesOk(b, q) && r !in b.recs
    requires forall ih :: |Queue(q, ih)| > 0 && Queue(q, ih)[0].Getting? ==> ih != c.ih
    requires forall ih :: |Queue(q, ih)| > 0 && Queue(q, ih)[0].Making? ==>
      ih != c.ih && (c.owned ==> c.gen != Queue(q, ih)[0].gen)
    ensures QueuesOk(Register(b, r, c), q)
  {
    hide DistinctHeads;
    forall ih | |Queue(q, ih)| > 0
      ensures HeadHolds(Register(b, r, c), ih, Queue(q, ih)[0])
    {
      assert HeadHolds(b, ih, Queue(q, ih)[0]);
    }
  }

  /** When an acquisition settles, nobody else is acquiring that infohash. */
  lemma PopHead(s: State, ih: Ih)
    requires Queued(s.b, s.queues) && Waiting(s, ih)
    ensures var p := Queue(Pop(s, ih).queues, ih); |p| > 0 ==> p[0].Acquire? || p[0].Check?
    ensures forall i :: i != ih ==> Queue(Pop(s, ih).queues, i) == Queue(s.queues, i)
  {}

  /** A live torrent no record names belongs to nobody. */
  lemma Unowned(b: Book, t: Tor, ih: Ih)
    requires Named(b) && Registered(b) && ih !in b.refs && t in b.torrents && b.torrents[t] == Torrent(ih, false)
    ensures forall r :: r in b.recs && b.recs[r].owned ==> b.recs[r].torrent != t
  {
    forall r | r in b.recs && b.recs[r].owned ensures b.recs[r].torrent != t {
      assert b.recs[r].torrent == t ==> Live(b, r) && b.recs[r].ih == ih;
      assert Live(b, r) ==> InRefs(b, r);
    }
  }

  lemma HeadNow(s: State, ih: Ih)
    requires QueuesOk(s.b, s.queues) && Waiting(s, ih)
    ensures HeadHolds(s.b, ih, Head(s, ih))
  {}

  lemma FoundOk(s: State, ih: Ih, t: Tor, r: Ref, now: nat)
    requires Core(s) && NoLeakBut(s.b, s.queues, {}) && Enabled(s, AcquireFound(ih, t, r, now))
    ensures var s' := Enrol(Pop(s, ih), r, Borrowed(ih, t, now), Head(s, ih).pk);
      Core(s') && NoLeakBut(s'.b, s'.queues, {})
  {
    HeadNow(s, ih);
    Unowned(s.b, t, ih);
    assert {} + Subject(Head(s, ih)) == {};
    PopCore(s, ih, {});
    PopHead(s, ih);
    PopBook(s, ih);
    var c := Borrowed(ih, t, now);
    RegisterOk(s.b, r, c);
    hide BookOk, Queued, Heads, DistinctHeads, NoLeakBut, Counted, Register, Pop;
    RegisterQueues(s.b, Pop(s, ih).queues, r, c) by {
      OthersElsewhere(s, ih);
    }
    hide QueuesOk;
    EnrolOk(Pop(s, ih), r, c, Head(s, ih).pk);
  }

  /** After the pop no running operation of `ih` is acquiring, and none elsewhere prepares the same generation. */
  lemma OthersElsewhere(s: State, ih: Ih)
    requires QueuesOk(s.b, s.queues) && Waiting(s, ih) && (Head(s, ih).Getting? || Head(s, ih).Making?)
    ensures var q := Pop(s, ih).queues;
      && (forall i :: |Queue(q, i)| > 0 && Queue(q, i)[0].Getting? ==> i != ih)
      && (forall i :: |Queue(q, i)| > 0 && Queue(q, i)[0].Making? ==>
           i != ih && (Head(s, ih).Making? ==> Head(s, ih).gen != Queue(q, i)[0].gen))
  {
    PopHead(s, ih);
    var q := Pop(s, ih).queues;
    hide Pop, Queued, Heads;
    forall i | |Queue(q, i)| > 0 && Queue(q, i)[0].Making? && i != ih && Head(s, ih).Making?
      ensures Head(s, ih).gen != Queue(q, i)[0].gen
    {
      assert Queue(q, i) == Queue(s.queues, i);
    }
  }

  lemma MissingOk(s: State, ih: Ih)
    requires Core(s) && NoLeakBut(s.b, s.queues, {}) && Waiting(s, ih) && Head(s, ih).Getting?
    ensures var s' := Advance(s.(b := s.b.(gens := s.b.gens + 1)), ih, Making(Head(s, ih).pk, s.b.gens + 1));
      Core(s') && NoLeakBut(s'.b, s'.queues, {})
  {
    var s1 := s.(b := s.b.(gens := s.b.gens + 1));
    var t := Making(Head(s, ih).pk, s.b.gens + 1);
    MoreGens(s);
    FreshGen(s, ih, t);
    hide Core, NoLeakBut, MayReach;
    assert {} + Subject(Head(s, ih)) == {};
    AdvanceCore(s1, ih, t, {});
  }

  lemma MoreGens(s: State)
    requires Core(s) && NoLeakBut(s.b, s.queues, {})
    ensures var s1 := s.(b := s.b.(gens := s.b.gens + 1)); Core(s1) && NoLeakBut(s1.b, s1.queues, {})
  {
    var b := s.b.(gens := s.b.gens + 1);
    GensBook(s.b, b);
    GensQueues(s.b, b, s.queues);
    hide BookOk, QueuesOk, Counted;
    assert NoLeakBut(b, s.queues, {});
    hide NoLeakBut;
    CountedSame(s.b, b, s.readers);
  }

  lemma GensBook(b: Book, c: Book)
    requires BookOk(b) && c == b.(gens := b.gens + 1)
    ensures BookOk(c)
  {
    assert Named(c);
    assert Retention(c);
    assert Registered(c);
  }

  lemma GensQueues(b: Book, c: Book, q: Queues)
    requires QueuesOk(b, q) && c == b.(gens := b.gens + 1)
    ensures QueuesOk(c, q)
  {
    hide DistinctHeads;
    forall i | |Queue(q, i)| > 0
      ensures HeadHolds(c, i, Queue(q, i)[0])
    {
      assert HeadHolds(b, i, Queue(q, i)[0]);
    }
  }

  lemma FreshGen(s: State, ih: Ih, t: Task)
    requires Core(s) && Waiting(s, ih) && Head(s, ih).Getting? && t == Making(Head(s, ih).pk, s.b.gens + 1)
    ensures MayReach(s.(b := s.b.(gens := s.b.gens + 1)), ih, t)
  {
    hide Queued, DistinctHeads, Counted, Named, Retention, Registered;
    assert HeadHolds(s.b, ih, Queue(s.queues, ih)[0]);
    forall i | i != ih && Waiting(s, i) && Head(s, i).Making?
      ensures Head(s, i).gen != t.gen
    {
      assert HeadHolds(s.b, i, Queue(s.queues, i)[0]);
    }
  }

  lemma OpenOk(s: State, t: Tor, ih: Ih)
    requires Core(s) && NoLeakBut(s.b, s.queues, {}) && t !in s.b.torrents
    ensures Core(s.(b := Open(s.b, t, ih))) && NoLeakBut(Open(s.b, t, ih), s.queues, {})
  {
    OpenBook(s.b, t, ih);
    assert NoLeakBut(Open(s.b, t, ih), s.queues, {}) by { hide Retention, Registered, Exclusive, QueuesOk; }
    OpenQueues(s.b, s.queues, t, ih);
    hide Retention, Registered, Exclusive, QueuesOk, NoLeakBut;
    CountedSame(s.b, Open(s.b, t, ih), s.readers);
  }

  lemma OpenBook(b: Book, t: Tor, ih: Ih)
    requires BookOk(b) && t !in b.torrents
    ensures BookOk(Open(b, t, ih))
  {
    assert Named(Open(b, t, ih));
    assert Retention(Open(b, t, ih));
  }

  lemma OpenQueues(b: Book, q: Queues, t: Tor, ih: Ih)
    requires QueuesOk(b, q) && Named(b) && t !in b.torrents
    ensures QueuesOk(Open(b, t, ih), q)
  {
    hide DistinctHeads;
    forall i | |Queue(q, i)| > 0
      ensures HeadHolds(Open(b, t, ih), i, Queue(q, i)[0])
    {
      assert HeadHolds(b, i, Queue(q, i)[0]);
    }
  }

  lemma CloseOk(s: State, t: Tor)
    requires Core(s) && NoLeakBut(s.b, s.queues, {}) && t in s.b.torrents
    ensures Core(s.(b := Close(s.b, t))) && NoLeakBut(Close(s.b, t), s.queues, {})
  {
    CloseBook(s.b, t);
    CloseLeak(s.b, s.queues, t, {});
    CloseQueues(s.b, s.queues, t);
    hide BookOk, QueuesOk, NoLeakBut;
    CountedSame(s.b, Close(s.b, t), s.readers);
  }

  lemma CloseBook(b: Book, t: Tor)
    requires BookOk(b) && t in b.torrents
    ensures BookOk(Close(b, t))
  {
    assert Named(Close(b, t));
    assert Retention(Close(b, t));
  }

  lemma CloseLeak(b: Book, q: Queues, t: Tor, x: set<Ref>)
    requires NoLeakBut(b, q, x) && t in b.torrents
    ensures NoLeakBut(Close(b, t), q, x)
  {}

  lemma CloseQueues(b: Book, q: Queues, t: Tor)
    requires QueuesOk(b, q) && t in b.torrents
    ensures QueuesOk(Close(b, t), q)
  {
    hide DistinctHeads;
    forall i | |Queue(q, i)| > 0
      ensures HeadHolds(Close(b, t), i, Queue(q, i)[0])
    {
      assert HeadHolds(b, i, Queue(q, i)[0]);
    }
  }

  lemma AddedOk(s: State, ih: Ih, t: Tor, r: Ref, now: nat)
    requires Core(s) && NoLeakBut(s.b, s.queues, {}) && Enabled(s, AcquireAdded(ih, t, r, now))
    ensures var s' := Enrol(Pop(Downloading(s, ih, t), ih), r, Owned(ih, t, Head(s, ih).gen, now), Head(s, ih).pk);
      Core(s') && NoLeakBut(s'.b, s'.queues, {})
  {
    var s1 := Downloading(s, ih, t);
    var c := Owned(ih, t, Head(s, ih).gen, now);
    DownloadingOk(s, ih, t);
    HeadNow(s1, ih);
    assert {} + Subject(Head(s, ih)) == {};
    PopCore(s1, ih, {});
    PopBook(s1, ih);
    AddedBook(s, ih, t, r, c);
    hide BookOk, Queued, Heads, DistinctHeads, NoLeakBut, Counted, Register, Pop, Downloading;
    assert Head(s1, ih) == Head(s, ih) by { DownloadingHead(s, ih, t); }
    RegisterQueues(s1.b, Pop(s1, ih).queues, r, c) by {
      OthersElsewhere(s1, ih);
    }
    hide QueuesOk;
    EnrolOk(Pop(s1, ih), r, c, Head(s, ih).pk);
  }

  lemma DownloadingHead(s: State, ih: Ih, t: Tor)
    requires Waiting(s, ih) && Head(s, ih).Making?
    ensures Waiting(Downloading(s, ih, t), ih) && Head(Downloading(s, ih, t), ih) == Head(s, ih)
    ensures Downloading(s, ih, t).b.recs == s.b.recs
  {}

  lemma DownloadingOk(s: State, ih: Ih, t: Tor)
    requires Core(s) && NoLeakBut(s.b, s.queues, {}) && Waiting(s, ih) && Head(s, ih).Making? && t !in s.b.torrents
    ensures Core(Downloading(s, ih, t)) && NoLeakBut(Downloading(s, ih, t).b, s.queues, {})
  {
    var b := Open(s.b, t, ih);
    var c := Downloading(s, ih, t).b;
    OpenOk(s, t, ih);
    MoreDirs(b, c, s.queues, Head(s, ih).gen);
    hide BookOk, QueuesOk, NoLeakBut;
    CountedSame(b, c, s.readers);
  }

  lemma MoreDirs(b: Book, c: Book, q: Queues, g: nat)
    requires BookOk(b) && QueuesOk(b, q) && NoLeakBut(b, q, {}) && c == b.(dirs := b.dirs + {g})
    ensures BookOk(c) && QueuesOk(c, q) && NoLeakBut(c, q, {})
  {
    DirsQueues(b, c, q);
    DirsBook(b, c);
    hide BookOk, QueuesOk;
  }

  lemma DirsBook(b: Book, c: Book)
    requires BookOk(b) && b.dirs <= c.dirs && c == b.(dirs := c.dirs)
    ensures BookOk(c)
  {
    assert Named(c);
    assert Retention(c);
    assert Registered(c);
  }

  lemma DirsQueues(b: Book, c: Book, q: Queues)
    requires QueuesOk(b, q) && c == b.(dirs := c.dirs)
    ensures QueuesOk(c, q)
  {
    hide DistinctHeads;
    forall i | |Queue(q, i)| > 0
      ensures HeadHolds(c, i, Queue(q, i)[0])
    {
      assert HeadHolds(b, i, Queue(q, i)[0]);
    }
  }

  /** A fresh torrent in its own generation directory. */
  lemma AddedBook(s: State, ih: Ih, t: Tor, r: Ref, c: Rec)
    requires Core(s) && Waiting(s, ih) && Head(s, ih).Making? && t !in s.b.torrents && r !in s.b.recs
    requires c.ih == ih && c.torrent == t && c.owned && c.gen == Head(s, ih).gen && c.readers == 1 && c.retainedBy == {}
    requires BookOk(Downloading(s, ih, t).b)
    ensures BookOk(Register(Downloading(s, ih, t).b, r, c))
  {
    HeadNow(s, ih);
    var b := Downloading(s, ih, t).b;
    assert forall q :: q in b.recs ==> b.recs[q].torrent != t;
    hide Core, Retention, Registered, Exclusive;
    RegisterOk(b, r, c);
  }

  // ---- retention --------------------------------------------------------------------------------------

  lemma LeaveOk(s: State, pk: Pk)
    requires Core(s) && NoLeakBut(s.b, s.queues, {})
    ensures Core(Leave(s, pk)) && NoLeakBut(Leave(s, pk).b, Leave(s, pk).queues, {})
    ensures pk !in Leave(s, pk).b.current && Leave(s, pk).readers == s.readers
  {
    hide Core, NoLeakBut, Idle, InRefs, Enqueue;
    if pk in s.b.current {
      var r := s.b.current[pk];
      CurrentKnown(s, pk);
      UnholdCore(s, pk);
      assert {r} - {r} == {};
      MaybeDestroyOk(s.(b := Unhold(s.b, pk)), r, {r});
    }
  }

  lemma CurrentKnown(s: State, pk: Pk)
    requires Core(s) && pk in s.b.current
    ensures s.b.current[pk] in s.b.recs
  {}

  lemma UnholdCore(s: State, pk: Pk)
    requires Core(s) && NoLeakBut(s.b, s.queues, {}) && pk in s.b.current && s.b.current[pk] in s.b.recs
    ensures Core(s.(b := Unhold(s.b, pk))) && NoLeakBut(Unhold(s.b, pk), s.queues, {s.b.current[pk]})
  {
    hide BookOk, QueuesOk, NoLeakBut;
    UnholdOk(s.b, s.queues, pk, {});
    assert {} + {s.b.current[pk]} == {s.b.current[pk]};
    CountedSame(s.b, Unhold(s.b, pk), s.readers);
  }

  lemma HeldOk(s: State, pk: Pk, r: Ref, now: nat)
    requires Core(s) && NoLeakBut(s.b, s.queues, {}) && r in s.b.recs && s.b.recs[r].readers > 0 && pk !in s.b.current
    ensures Core(s.(b := Hold(s.b, pk, r, now))) && NoLeakBut(Hold(s.b, pk, r, now), s.queues, {})
  {
    hide BookOk, QueuesOk, NoLeakBut, Counted;
    HoldOk(s.b, s.queues, pk, r, now, {});
    CountedSame(s.b, Hold(s.b, pk, r, now), s.readers);
  }

  lemma HeldByLoad(s: State, h: nat)
    requires Core(s) && h in s.readers
    ensures s.readers[h].ref in s.b.recs && s.b.recs[s.readers[h].ref].readers > 0
  {
    Holds(s, h);
  }

  lemma RepointOk(s: State, h: nat, now: nat)
    requires Core(s) && NoLeakBut(s.b, s.queues, {}) && h in s.readers
    ensures s.readers[h].ref in s.b.recs
    ensures s.readers[h].pk in s.b.current ==> s.b.current[s.readers[h].pk] in s.b.recs
    ensures var s' := Repoint(s, s.readers[h].pk, s.readers[h].ref, now); Core(s') && NoLeakBut(s'.b, s'.queues, {})
  {
    var pk, r := s.readers[h].pk, s.readers[h].ref;
    if pk in s.b.current { CurrentKnown(s, pk); }
    hide Core, NoLeakBut, Leave;
    LeaveOk(s, pk);
    HeldByLoad(s, h);
    HeldByLoad(Leave(s, pk), h);
    HeldOk(Leave(s, pk), pk, r, now);
  }

  lemma LetGoOk(s: State, h: nat)
    requires Core(s) && NoLeakBut(s.b, s.queues, {}) && h in s.readers
    ensures s.readers[h].ref in s.b.recs && s.b.recs[s.readers[h].ref].readers > 0
    ensures Core(LetGo(s, h)) && NoLeakBut(LetGo(s, h).b, LetGo(s, h).queues, {})
  {
    Holds(s, h);
    var r := s.readers[h].ref;
    hide BookOk, QueuesOk, NoLeakBut, Counted;
    DropOk(s.b, s.queues, r, {});
    DropHolder(s.b, s.readers, h);
    assert {} + {r} == {r};
    assert {r} - {r} == {};
    MaybeDestroyOk(s.(b := Drop(s.b, r), readers := s.readers - {h}), r, {r});
  }

  // ---- destruction -----------------------------------------------------------------------------------

  lemma ForgetAfterClose(b: Book, r: Ref)
    requires r in b.recs && b.recs[r].torrent in b.torrents
    ensures Destroy(b, r) == if InRefs(b, r) then Unregister(Close(b, b.recs[r].torrent), b.recs[r].ih)
      else Close(b, b.recs[r].torrent)
  {}

  lemma DestroyOk(s: State, r: Ref)
    requires Core(s) && NoLeakBut(s.b, s.queues, {}) && r in s.b.recs
    ensures Core(s.(b := Destroy(s.b, r))) && NoLeakBut(Destroy(s.b, r), s.queues, {})
    ensures !Live(Destroy(s.b, r), r) && !InRefs(Destroy(s.b, r), r) && Destroy(s.b, r).recs == s.b.recs
  {
    var t := s.b.recs[r].torrent;
    CloseOk(s, t);
    ForgetAfterClose(s.b, r);
    hide BookOk, QueuesOk, NoLeakBut, Counted;
    if InRefs(s.b, r) {
      UnregisterOk(Close(s.b, t), s.queues, s.b.recs[r].ih, {});
      CountedSame(s.b, Destroy(s.b, r), s.readers);
    }
  }

  lemma CheckOk(s: State, ih: Ih)
    requires Core(s) && NoLeakBut(s.b, s.queues, {}) && Waiting(s, ih) && Head(s, ih).Check?
    ensures Core(CheckStep(s, ih)) && NoLeakBut(CheckStep(s, ih).b, CheckStep(s, ih).queues, {})
  {
    var r := Head(s, ih).ref;
    assert r in s.b.recs && s.b.recs[r].owned && s.b.recs[r].ih == ih;
    assert {} + Subject(Head(s, ih)) == {r};
    if Idle(s.b, r) {
      var s1 := s.(b := Destroy(s.b, r));
      DestroyOk(s, r);
      assert Waiting(s1, ih) && Head(s1, ih) == Head(s, ih);
      hide Core, NoLeakBut, Destroy, InRefs, Live;
      assert MayReach(s1, ih, Removing(r));
      hide MayReach;
      AdvanceCore(s1, ih, Removing(r), {});
      LeakAllBut(s1.b, Advance(s1, ih, Removing(r)).queues, r);
      AdvanceBook(s1, ih, Removing(r));
    } else {
      hide Core, NoLeakBut;
      PopCore(s, ih, {});
      PopBook(s, ih);
      LeakAllBut(s.b, Pop(s, ih).queues, r);
    }
  }

  lemma LeakAllBut(b: Book, q: Queues, r: Ref)
    requires NoLeakBut(b, q, {r}) && !(Live(b, r) && Idle(b, r))
    ensures NoLeakBut(b, q, {})
  {}

  lemma DoneOk(s: State, ih: Ih, removed: bool)
    requires Core(s) && NoLeakBut(s.b, s.queues, {}) && Waiting(s, ih) && Head(s, ih).Removing?
    ensures Core(DoneStep(s, ih, removed)) && NoLeakBut(DoneStep(s, ih, removed).b, DoneStep(s, ih, removed).queues, {})
  {
    var r := Head(s, ih).ref;
    HeadNow(s, ih);
    assert r in s.b.recs && s.b.recs[r].owned;
    assert {} + Subject(Head(s, ih)) == {};
    PopCore(s, ih, {});
    PopBook(s, ih);
    if removed {
      var s1 := Pop(s, ih);
      var c := s1.b.(dirs := s1.b.dirs - {s.b.recs[r].gen});
      FewerDirs(s1.b, c, r);
      DirsQueues(s1.b, c, s1.queues);
      hide BookOk, QueuesOk, Counted, Pop;
      assert NoLeakBut(c, s1.queues, {});
      hide NoLeakBut;
      CountedSame(s1.b, c, s1.readers);
    }
  }

  /** The directory that goes is no live record's. */
  lemma FewerDirs(b: Book, c: Book, r: Ref)
    requires BookOk(b) && r in b.recs && b.recs[r].owned && !Live(b, r) && c == b.(dirs := b.dirs - {b.recs[r].gen})
    ensures BookOk(c)
  {
    assert Named(c);
    assert Retention(c);
    assert Registered(c);
  }
}
