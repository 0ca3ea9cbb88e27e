/**
 What holds in every state of every run of the catalog torrent lifecycle (src/node.ts:986-1299), whatever the
 interleaving of loads, releases, evictions, queued destructions and torrents opened or closed from outside.
 */
module CatalogRuns {
  import opened Options
  import opened CatalogBook
  import opened CatalogQueues
  import opened CatalogCap
  import opened CatalogSteps

  // ---- the cap ---------------------------------------------------------------------------------------

  lemma CapOk(s: State, order: seq<Ref>, max: nat)
    requires Core(s) && NoLeakBut(s.b, s.queues, {}) && ByUse(s.b, order)
    ensures Inv(Cap(s, order, max), max)
  {
    assert Retention(s.b);
    hide Core, NoLeakBut, Retention, Cap, ByUse, Parked;
    CapBound(s, order, max);
    CapCore(s, order, max);
  }

  lemma CapCore(s: State, order: seq<Ref>, max: nat)
    requires Core(s) && NoLeakBut(s.b, s.queues, {}) && ByUse(s.b, order)
    ensures Core(Cap(s, order, max)) && NoLeakBut(Cap(s, order, max).b, Cap(s, order, max).queues, {})
  {
    hide Core, NoLeakBut, Evict, AllOwned, Distinct, Sorted, OwnedLive;
    if |order| > max {
      EvictOk(s, order, |order| - max);
    }
  }

  lemma MaybeDestroyParks(s: State, r: Ref)
    requires r in s.b.recs
    ensures Parked(MaybeDestroy(s, r).b) <= Parked(s.b)
  {}

  lemma RefKnown(s: State, ih: Ih)
    requires Core(s) && ih in s.b.refs
    ensures s.b.refs[ih] in s.b.recs
  {}

  lemma BeginParks(s: State, ih: Ih, now: nat)
    requires Core(s) && Waiting(s, ih) && Head(s, ih).Acquire?
    ensures Parked(BeginStep(s, ih, now).b) <= Parked(s.b)
  {
    if ih in s.b.refs {
      var r := s.b.refs[ih];
      RefKnown(s, ih);
      hide Core;
      if Live(s.b, r) {
        UseParks(s.b, r, now);
      } else {
        StaleParks(s, ih);
        hide DetachStale, Parked;
      }
    }
  }

  lemma UseParks(b: Book, r: Ref, now: nat)
    requires r in b.recs
    ensures Parked(Use(b, r, now)) <= Parked(b)
  {}

  lemma StaleParks(s: State, ih: Ih)
    requires ih in s.b.refs && s.b.refs[ih] in s.b.recs
    ensures Parked(DetachStale(s, ih).b) <= Parked(s.b)
  {
    var r := s.b.refs[ih];
    var b1 := Unregister(Detach(s.b, r), ih);
    DetachParks(s.b, r);
    UnregisterParks(Detach(s.b, r), ih);
    hide Parked, Detach, Unregister, MaybeDestroy;
    MaybeDestroyParks(s.(b := b1), r);
  }

  lemma UnregisterParks(b: Book, ih: Ih)
    ensures Parked(Unregister(b, ih)) <= Parked(b)
  {}

  lemma DetachParks(b: Book, r: Ref)
    requires r in b.recs
    ensures Parked(Detach(b, r)) <= Parked(b)
  {}

  lemma LeaveParks(s: State, pk: Pk)
    requires Core(s)
    ensures Parked(Leave(s, pk).b) <= Parked(s.b)
  {
    if pk in s.b.current {
      CurrentKnown(s, pk);
      hide Core;
      UnholdParks(s.b, pk);
      hide Parked, MaybeDestroy, Unhold;
      MaybeDestroyParks(s.(b := Unhold(s.b, pk)), s.b.current[pk]);
    }
  }

  lemma UnholdParks(b: Book, pk: Pk)
    requires pk in b.current && b.current[pk] in b.recs
    ensures Parked(Unhold(b, pk)) <= Parked(b)
  {}

  lemma EnrolParks(s: State, r: Ref, c: Rec, pk: Pk)
    requires Core(s) && r !in s.b.recs && c.readers == 1
    ensures Parked(Enrol(s, r, c, pk).b) <= Parked(s.b)
  {
    hide Retention, Registered, Exclusive, QueuesOk, Counted;
  }

  lemma CheckParks(s: State, ih: Ih)
    requires Core(s) && Waiting(s, ih) && Head(s, ih).Check?
    ensures Parked(CheckStep(s, ih).b) <= Parked(s.b)
  {
    var r := Head(s, ih).ref;
    assert r in s.b.recs && s.b.recs[r].torrent in s.b.torrents;
    hide Core;
    DestroyParks(s.b, r);
  }

  lemma DestroyParks(b: Book, r: Ref)
    requires r in b.recs && b.recs[r].torrent in b.torrents
    ensures Parked(Destroy(b, r)) <= Parked(b)
  {}

  lemma OpenParks(b: Book, t: Tor, ih: Ih)
    requires Named(b) && t !in b.torrents
    ensures Parked(Open(b, t, ih)) <= Parked(b)
  {}

  lemma DownloadingParks(s: State, ih: Ih, t: Tor)
    requires Named(s.b) && Waiting(s, ih) && Head(s, ih).Making? && t !in s.b.torrents
    ensures Parked(Downloading(s, ih, t).b) <= Parked(s.b)
  {
    OpenParks(s.b, t, ih);
  }

  lemma DoneParks(s: State, ih: Ih, removed: bool)
    requires Queued(s.b, s.queues) && Waiting(s, ih) && Head(s, ih).Removing?
    ensures Parked(DoneStep(s, ih, removed).b) <= Parked(s.b)
  {}

  // ---- every step ---------------------------------------------------------------------------------------

  predicate Acquiring(e: Event) {
    e.StartLoad? || e.AcquireAborted? || e.AcquireBegin? || e.AcquireFound? || e.AcquireMissing? || e.AcquireAdded? ||
    e.AcquireFailed?
  }

  lemma AcquiringOk(s: State, e: Event, max: nat)
    requires Inv(s, max) && Enabled(s, e) && Acquiring(e)
    ensures Core(Next(s, e, max)) && NoLeakBut(Next(s, e, max).b, Next(s, e, max).queues, {})
  {
    hide Core, NoLeakBut, QueuesOk, BookOk, Pop, Enrol, Downloading, Advance, BeginStep;
    match e
    case StartLoad(pk, ih) => StartOk(s, pk, ih);
    case AcquireAborted(ih) => PopCore(s, ih, {}); PopBook(s, ih); assert {} + Subject(Head(s, ih)) == {};
    case AcquireBegin(ih, now) => BeginOk(s, ih, now);
    case AcquireFound(ih, t, r, now) => FoundOk(s, ih, t, r, now);
    case AcquireMissing(ih) => MissingOk(s, ih);
    case AcquireAdded(ih, t, r, now) => AddedOk(s, ih, t, r, now);
    case AcquireFailed(ih) => PopCore(s, ih, {}); PopBook(s, ih); assert {} + Subject(Head(s, ih)) == {};
  }

  lemma AcquiringParks(s: State, e: Event, max: nat)
    requires Inv(s, max) && Enabled(s, e) && Acquiring(e)
    ensures Parked(Next(s, e, max).b) <= Parked(s.b)
  {
    assert Named(s.b);
    match e
    case StartLoad(pk, ih) =>
    case AcquireAborted(ih) => PopBook(s, ih);
    case AcquireBegin(ih, now) => BeginParks(s, ih, now);
    case AcquireFound(ih, t, r, now) => FoundParks(s, ih, t, r, now);
    case AcquireMissing(ih) =>
    case AcquireAdded(ih, t, r, now) => AddedParks(s, ih, t, r, now);
    case AcquireFailed(ih) => PopBook(s, ih);
  }

  lemma FoundParks(s: State, ih: Ih, t: Tor, r: Ref, now: nat)
    requires Core(s) && NoLeakBut(s.b, s.queues, {}) && Enabled(s, AcquireFound(ih, t, r, now))
    ensures Parked(Enrol(Pop(s, ih), r, Borrowed(ih, t, now), Head(s, ih).pk).b) <= Parked(s.b)
  {
    hide Core, NoLeakBut, Enrol, Pop;
    PopCore(s, ih, {});
    PopBook(s, ih);
    EnrolParks(Pop(s, ih), r, Borrowed(ih, t, now), Head(s, ih).pk);
  }

  lemma AddedParks(s: State, ih: Ih, t: Tor, r: Ref, now: nat)
    requires Core(s) && NoLeakBut(s.b, s.queues, {}) && Enabled(s, AcquireAdded(ih, t, r, now))
    ensures Parked(Enrol(Pop(Downloading(s, ih, t), ih), r, Owned(ih, t, Head(s, ih).gen, now),
      Head(s, ih).pk).b) <= Parked(s.b)
  {
    assert Named(s.b);
    hide Core, NoLeakBut, Enrol, Pop;
    DownloadingOk(s, ih, t);
    DownloadingParks(s, ih, t);
    DownloadingHead(s, ih, t);
    hide Downloading, Parked;
    PopCore(Downloading(s, ih, t), ih, {});
    PopBook(Downloading(s, ih, t), ih);
    EnrolParks(Pop(Downloading(s, ih, t), ih), r, Owned(ih, t, Head(s, ih).gen, now), Head(s, ih).pk);
  }

  lemma RetainOk(s: State, h: nat, now: nat, order: seq<Ref>, max: nat)
    requires Inv(s, max) && Enabled(s, Retain(h, now, order))
    ensures Inv(Next(s, Retain(h, now, order), max), max)
  {
    hide Core, NoLeakBut, Repoint;
    if !Current(s, h) {
      if s.readers[h].pk in s.b.current { CurrentKnown(s, s.readers[h].pk); }
      RepointOk(s, h, now);
      CapOk(Repoint(s, s.readers[h].pk, s.readers[h].ref, now), order, max);
    }
  }

  lemma ReleaseOk(s: State, h: nat, order: seq<Ref>, max: nat)
    requires Inv(s, max) && Enabled(s, Release(h, order))
    ensures Inv(Next(s, Release(h, order), max), max)
  {
    hide Core, NoLeakBut, LetGo;
    LetGoOk(s, h);
    CapOk(LetGo(s, h), order, max);
  }

  lemma RetireOk(s: State, pk: Pk, only: Option<Ih>, max: nat)
    requires Inv(s, max)
    ensures Inv(RetireStep(s, pk, only), max)
  {
    LeaveOk(s, pk);
    LeaveParks(s, pk);
    hide Core, NoLeakBut, Leave, Parked;
    Subset(Parked(Leave(s, pk).b), Parked(s.b));
  }

  lemma TouchCore(s: State, r: Ref, now: nat)
    requires Core(s) && NoLeakBut(s.b, s.queues, {}) && r in s.b.recs
    ensures Core(s.(b := Touch(s.b, r, now))) && NoLeakBut(Touch(s.b, r, now), s.queues, {})
  {
    hide BookOk, QueuesOk, NoLeakBut;
    TouchOk(s.b, s.queues, r, now, {});
    CountedSame(s.b, Touch(s.b, r, now), s.readers);
  }

  lemma TouchParks(b: Book, r: Ref, now: nat)
    requires r in b.recs
    ensures Parked(Touch(b, r, now)) <= Parked(b)
  {}

  lemma TouchedOk(s: State, pk: Pk, ih: Ih, now: nat, max: nat)
    requires Inv(s, max)
    ensures Inv(TouchStep(s, pk, ih, now), max)
  {
    hide Core, NoLeakBut, Parked, Touch;
    if pk in s.b.current {
      var r := s.b.current[pk];
      CurrentKnown(s, pk);
      TouchCore(s, r, now);
      TouchParks(s.b, r, now);
      Subset(Parked(Touch(s.b, r, now)), Parked(s.b));
    }
  }

  lemma DestroyCheckOk(s: State, ih: Ih, max: nat)
    requires Inv(s, max) && Enabled(s, DestroyCheck(ih))
    ensures Inv(CheckStep(s, ih), max)
  {
    CheckOk(s, ih);
    CheckParks(s, ih);
    hide Core, NoLeakBut, Parked, CheckStep;
    Subset(Parked(CheckStep(s, ih).b), Parked(s.b));
  }

  lemma DestroyDoneOk(s: State, ih: Ih, removed: bool, max: nat)
    requires Inv(s, max) && Enabled(s, DestroyDone(ih, removed))
    ensures Inv(DoneStep(s, ih, removed), max)
  {
    DoneOk(s, ih, removed);
    DoneParks(s, ih, removed);
    hide Core, NoLeakBut, Parked, DoneStep;
    Subset(Parked(DoneStep(s, ih, removed).b), Parked(s.b));
  }

  lemma OpenedOk(s: State, t: Tor, ih: Ih, max: nat)
    requires Inv(s, max) && t !in s.b.torrents
    ensures Inv(s.(b := Open(s.b, t, ih)), max)
  {
    OpenOk(s, t, ih);
    OpenParks(s.b, t, ih);
    hide Core, NoLeakBut, Parked;
    Subset(Parked(Open(s.b, t, ih)), Parked(s.b));
  }

  lemma ClosedOk(s: State, t: Tor, max: nat)
    requires Inv(s, max) && t in s.b.torrents
    ensures Inv(s.(b := Close(s.b, t)), max)
  {
    CloseOk(s, t);
    hide Core, NoLeakBut;
    assert Parked(Close(s.b, t)) <= Parked(s.b);
    hide Parked;
    Subset(Parked(Close(s.b, t)), Parked(s.b));
  }

  /** What publishers do with their catalogs. */
  predicate Using(e: Event) { e.Retain? || e.Release? || e.Retire? || e.Touched? }

  lemma NextOf(s: State, e: Event, max: nat)
    requires Core(s) && Enabled(s, e)
    ensures e.Retire? ==> Next(s, e, max) == RetireStep(s, e.pk, e.only)
    ensures e.Touched? ==> Next(s, e, max) == TouchStep(s, e.pk, e.ih, e.now)
    ensures e.DestroyCheck? ==> Waiting(s, e.ih) && Head(s, e.ih).Check? && Next(s, e, max) == CheckStep(s, e.ih)
    ensures e.DestroyDone? ==>
      Waiting(s, e.ih) && Head(s, e.ih).Removing? && Next(s, e, max) == DoneStep(s, e.ih, e.removed)
    ensures e.Opened? ==> e.t !in s.b.torrents && Next(s, e, max) == s.(b := Open(s.b, e.t, e.ih))
    ensures e.Closed? ==> e.t in s.b.torrents && Next(s, e, max) == s.(b := Close(s.b, e.t))
  {
    hide RetireStep, TouchStep, CheckStep, DoneStep, Cap, ByUse, Repoint, LetGo, BeginStep, Open, Close;
  }

  lemma UsingOk(s: State, e: Event, max: nat)
    requires Inv(s, max) && Enabled(s, e) && Using(e)
    ensures Inv(Next(s, e, max), max)
  {
    assert Core(s);
    hide Inv, Core, Next, Enabled, RetireStep, TouchStep;
    NextOf(s, e, max);
    match e
    case Retain(h, now, order) => RetainOk(s, h, now, order, max);
    case Release(h, order) => ReleaseOk(s, h, order, max);
    case Retire(pk, only) => RetireOk(s, pk, only, max);
    case Touched(pk, ih, now) => TouchedOk(s, pk, ih, now, max);
  }

  /** What happens to torrents. */
  lemma TorrentsOk(s: State, e: Event, max: nat)
    requires Inv(s, max) && Enabled(s, e) && !Acquiring(e) && !Using(e)
    ensures Inv(Next(s, e, max), max)
  {
    assert Core(s);
    hide Inv, Core, Next, Enabled, CheckStep, DoneStep, Open, Close;
    NextOf(s, e, max);
    match e
    case DestroyCheck(ih) => DestroyCheckOk(s, ih, max);
    case DestroyDone(ih, removed) => DestroyDoneOk(s, ih, removed, max);
    case Opened(t, ih) => OpenedOk(s, t, ih, max);
    case Closed(t) => ClosedOk(s, t, max);
  }

  /** No step leaves the invariant. */
  lemma StepKeeps(s: State, e: Event, max: nat)
    requires Inv(s, max) && Enabled(s, e)
    ensures Inv(Next(s, e, max), max)
  {
    if Acquiring(e) {
      AcquiringOk(s, e, max);
      AcquiringParks(s, e, max);
      hide Core, NoLeakBut, Next, Parked;
      Subset(Parked(Next(s, e, max).b), Parked(s.b));
    } else if Using(e) {
      UsingOk(s, e, max);
      hide *;
    } else {
      TorrentsOk(s, e, max);
      hide *;
    }
  }

  // ---- runs -----------------------------------------------------------------------------------------------

  function Initial(): State { State(Book(map[], map[], map[], map[], 0, {}), map[], map[], 0) }

  /** The events es lead from s to t.  (Core is what makes Enabled well defined; RunKeeps shows it always holds.) */
  ghost predicate Reaches(s: State, es: seq<Event>, t: State, max: nat)
    decreases es
  {
    if es == [] then s == t
    else Core(s) && Enabled(s, es[0]) && Reaches(Next(s, es[0], max), es[1..], t, max)
  }

  lemma {:induction false} RunKeeps(s: State, es: seq<Event>, t: State, max: nat)
    requires Inv(s, max) && Reaches(s, es, t, max)
    ensures Inv(t, max)
    decreases es
  {
    hide Inv, Next, Enabled, Core;
    if es == [] {
    } else {
      StepKeeps(s, es[0], max);
      RunKeeps(Next(s, es[0], max), es[1..], t, max);
    }
  }

  lemma InitialOk(max: nat)
    ensures Inv(Initial(), max)
  {
    assert forall r :: Holders(map[], r) == {};
    assert Parked(Initial().b) == {};
  }

  /** Reference counting is exact in every reachable state, and nothing owned and unused is forgotten. */
  lemma LifecycleSafe(es: seq<Event>, t: State, max: nat)
    requires Reaches(Initial(), es, t, max)
    ensures forall r, pk :: r in t.b.recs ==>
      (pk in t.b.recs[r].retainedBy <==> pk in t.b.current && t.b.current[pk] == r)
    ensures forall r :: r in t.b.recs ==> t.b.recs[r].readers == |Holders(t.readers, r)|
    ensures forall r :: Live(t.b, r) && (t.b.recs[r].readers > 0 || t.b.recs[r].retainedBy != {}) ==>
      t.b.recs[r].ih in t.b.refs && t.b.refs[t.b.recs[r].ih] == r
    ensures forall r ::
      && Live(t.b, r) && t.b.recs[r].owned && t.b.recs[r].readers == 0 && t.b.recs[r].retainedBy == {}
      ==> Check(r) in Queue(t.queues, t.b.recs[r].ih)
  {
    InitialOk(max);
    RunKeeps(Initial(), es, t, max);
    hide Reaches;
    RetentionExact(t, max);
    UsedIsRegistered(t, max);
    UnusedIsQueued(t, max);
    hide *;
  }

  lemma RetentionExact(t: State, max: nat)
    requires Inv(t, max)
    ensures forall r, pk :: r in t.b.recs ==>
      (pk in t.b.recs[r].retainedBy <==> pk in t.b.current && t.b.current[pk] == r)
    ensures forall r :: r in t.b.recs ==> t.b.recs[r].readers == |Holders(t.readers, r)|
  {
    hide QueuesOk, NoLeakBut, Named, Registered, Exclusive;
  }

  lemma UsedIsRegistered(t: State, max: nat)
    requires Inv(t, max)
    ensures forall r :: Live(t.b, r) && (t.b.recs[r].readers > 0 || t.b.recs[r].retainedBy != {}) ==>
      t.b.recs[r].ih in t.b.refs && t.b.refs[t.b.recs[r].ih] == r
  {
    hide QueuesOk, NoLeakBut, Named, Retention, Exclusive, Counted;
  }

  lemma UnusedIsQueued(t: State, max: nat)
    requires Inv(t, max)
    ensures forall r ::
      && Live(t.b, r) && t.b.recs[r].owned && t.b.recs[r].readers == 0 && t.b.recs[r].retainedBy == {}
      ==> Check(r) in Queue(t.queues, t.b.recs[r].ih)
  {
    hide Core;
  }

  ghost predicate Quiet(s: State) {
    s.readers == map[] && forall ih :: Queue(s.queues, ih) == []
  }

  /** Once no load runs and every queue has drained, the owned torrents alive are the retained ones, at most `max`. */
  lemma QuietIsCapped(es: seq<Event>, t: State, max: nat)
    requires Reaches(Initial(), es, t, max) && Quiet(t)
    ensures forall r :: r in OwnedLive(t.b) <==> Live(t.b, r) && t.b.recs[r].owned
    ensures forall r :: r in OwnedLive(t.b) ==>
      exists pk :: pk in t.b.recs[r].retainedBy && pk in t.b.current && t.b.current[pk] == r
    ensures |OwnedLive(t.b)| <= max
  {
    InitialOk(max);
    RunKeeps(Initial(), es, t, max);
    QuietParked(t, max);
  }

  lemma QuietRetained(t: State, max: nat, r: Ref)
    requires Inv(t, max) && Quiet(t) && r in OwnedLive(t.b)
    ensures t.b.recs[r].readers == 0 && t.b.recs[r].retainedBy != {}
  {
    assert Counted(t.b, t.readers);
    hide Core;
    assert Holders(t.readers, r) == {};
    assert Queue(t.queues, t.b.recs[r].ih) == [];
  }

  lemma QuietParked(t: State, max: nat)
    requires Inv(t, max) && Quiet(t)
    ensures forall r :: r in OwnedLive(t.b) <==> Live(t.b, r) && t.b.recs[r].owned
    ensures forall r :: r in OwnedLive(t.b) ==>
      exists pk :: pk in t.b.recs[r].retainedBy && pk in t.b.current && t.b.current[pk] == r
    ensures |OwnedLive(t.b)| <= max
  {
    assert Registered(t.b) && Retention(t.b) && |Parked(t.b)| <= max;
    forall r | r in OwnedLive(t.b) ensures t.b.recs[r].readers == 0 && t.b.recs[r].retainedBy != {} {
      QuietRetained(t, max, r);
    }
    hide Inv, Quiet;
    forall r | r in OwnedLive(t.b)
      ensures exists pk :: pk in t.b.recs[r].retainedBy && pk in t.b.current && t.b.current[pk] == r
    {
      var pk :| pk in t.b.recs[r].retainedBy;
    }
    assert OwnedLive(t.b) == Parked(t.b);
  }

  // ---- destruction ------------------------------------------------------------------------------------------

  /**
   Every record but r keeps its torrent, its users and its directory, every torrent but r's stays as it is, whether
   a record names it or not, and no directory but r's goes.
   */
  ghost predicate OthersKept(b: Book, c: Book, r: Ref)
    requires r in b.recs
  {
    && (forall q :: q in b.recs && q != r ==>
          && q in c.recs && c.recs[q] == b.recs[q]
          && (Live(c, q) <==> Live(b, q))
          && (b.recs[q].owned && b.recs[q].gen in b.dirs ==> b.recs[q].gen in c.dirs))
    && (forall t :: t in b.torrents && t != b.recs[r].torrent ==> t in c.torrents && c.torrents[t] == b.torrents[t])
    && b.dirs - {b.recs[r].gen} <= c.dirs <= b.dirs && c.current == b.current
  }

  /** A destroy step concerns an owned record nobody uses, or changes nothing; no other record is affected. */
  lemma DestroyTouchesOnlyItsOwn(s: State, e: Event, max: nat)
    requires Inv(s, max) && Enabled(s, e) && (e.DestroyCheck? || e.DestroyDone?)
    ensures var r := Head(s, e.ih).ref;
      && r in s.b.recs && s.b.recs[r].owned && s.b.recs[r].ih == e.ih
      && (Idle(s.b, r) || Next(s, e, max).b == s.b)
      && OthersKept(s.b, Next(s, e, max).b, r)
  {
    HeadOwned(s, e.ih);
    if e.DestroyCheck? {
      CheckEffect(s, e.ih);
      hide Core, OthersKept, CheckStep;
    } else {
      HeadIdle(s, e.ih);
      DoneEffect(s, e.ih, e.removed);
      hide Core, OthersKept, DoneStep;
    }
  }

  lemma HeadOwned(s: State, ih: Ih)
    requires Queued(s.b, s.queues) && Waiting(s, ih) && (Head(s, ih).Check? || Head(s, ih).Removing?)
    ensures var r := Head(s, ih).ref; r in s.b.recs && s.b.recs[r].owned && s.b.recs[r].ih == ih
  {}

  lemma CheckBook(s: State, ih: Ih)
    requires Core(s) && Waiting(s, ih) && Head(s, ih).Check?
    ensures var r := Head(s, ih).ref;
      && r in s.b.recs && s.b.recs[r].torrent in s.b.torrents
      && CheckStep(s, ih).b == if Idle(s.b, r) then Destroy(s.b, r) else s.b
  {
    HeadOwned(s, ih);
    hide Heads, DistinctHeads, Registered, Retention, Counted, Exclusive, Destroy, Idle;
  }

  lemma CheckEffect(s: State, ih: Ih)
    requires Core(s) && Waiting(s, ih) && Head(s, ih).Check?
    ensures var r := Head(s, ih).ref;
      && r in s.b.recs
      && (Idle(s.b, r) || CheckStep(s, ih).b == s.b) && OthersKept(s.b, CheckStep(s, ih).b, r)
  {
    HeadOwned(s, ih);
    CheckBook(s, ih);
    assert Named(s.b) && Exclusive(s.b);
    hide Core, CheckStep;
    DestroyOthers(s.b, Head(s, ih).ref);
    AllKept(s.b, Head(s, ih).ref);
    hide OthersKept, Destroy, Idle;
  }

  lemma AllKept(b: Book, r: Ref)
    requires r in b.recs
    ensures OthersKept(b, b, r)
  {}

  lemma DoneEffect(s: State, ih: Ih, removed: bool)
    requires Core(s) && Waiting(s, ih) && Head(s, ih).Removing?
    ensures OthersKept(s.b, DoneStep(s, ih, removed).b, Head(s, ih).ref)
  {
    HeadOwned(s, ih);
    hide Heads, DistinctHeads, Registered, Retention, Counted;
  }

  lemma HeadIdle(s: State, ih: Ih)
    requires Core(s) && Waiting(s, ih) && Head(s, ih).Removing?
    ensures Idle(s.b, Head(s, ih).ref) && !Live(s.b, Head(s, ih).ref)
  {
    HeadNow(s, ih);
  }

  lemma DestroyOthers(b: Book, r: Ref)
    requires Named(b) && Exclusive(b) && r in b.recs && b.recs[r].owned
    ensures OthersKept(b, Destroy(b, r), r)
  {}

  ghost predicate Grows(q: Queues, p: Queues) {
    forall ih :: Queue(q, ih) <= Queue(p, ih)
  }

  lemma GrowsTwice(q: Queues, p: Queues, o: Queues)
    requires Grows(q, p) && Grows(p, o)
    ensures Grows(q, o)
  {}

  lemma MaybeDestroyGrows(s: State, r: Ref)
    requires r in s.b.recs
    ensures Grows(s.queues, MaybeDestroy(s, r).queues)
  {}

  lemma {:induction false} EvictGrows(s: State, order: seq<Ref>, excess: nat)
    requires AllOwned(s.b, order)
    ensures Grows(s.queues, Evict(s, order, excess).queues)
    decreases order
  {
    if order == [] || excess == 0 {
    } else if s.b.recs[order[0]].readers > 0 {
      EvictGrows(s, order[1..], excess);
    } else {
      EvictGrows(EvictOne(s, order[0]), order[1..], excess - 1);
      MaybeDestroyGrows(s.(b := Detach(s.b, order[0])), order[0]);
      hide AllOwned, Known, MaybeDestroy;
    }
  }

  lemma CapGrows(s: State, order: seq<Ref>, max: nat)
    requires ByUse(s.b, order)
    ensures Grows(s.queues, Cap(s, order, max).queues)
  {
    if |order| > max { EvictGrows(s, order, |order| - max); }
  }

  predicate About(e: Event, ih: Ih) {
    match e
    case StartLoad(_, _) => false
    case AcquireAborted(i) => i == ih
    case AcquireBegin(i, _) => i == ih
    case AcquireFound(i, _, _, _) => i == ih
    case AcquireMissing(i) => i == ih
    case AcquireAdded(i, _, _, _) => i == ih
    case AcquireFailed(i) => i == ih
    case DestroyCheck(i) => i == ih
    case DestroyDone(i, _) => i == ih
    case _ => false
  }

  lemma LeaveGrows(s: State, pk: Pk)
    requires Core(s)
    ensures Grows(s.queues, Leave(s, pk).queues)
  {
    if pk in s.b.current {
      CurrentKnown(s, pk);
      hide Core, MaybeDestroy;
      MaybeDestroyGrows(s.(b := Unhold(s.b, pk)), s.b.current[pk]);
    }
  }

  lemma StaleGrows(s: State, i: Ih)
    requires i in s.b.refs ==> s.b.refs[i] in s.b.recs
    ensures Grows(s.queues, DetachStale(s, i).queues)
  {
    if i in s.b.refs {
      MaybeDestroyGrows(s.(b := Unregister(Detach(s.b, s.b.refs[i]), i)), s.b.refs[i]);
      hide MaybeDestroy;
    }
  }

  lemma BeginGrows(s: State, i: Ih, now: nat, ih: Ih)
    requires Core(s) && Waiting(s, i) && Head(s, i).Acquire? && i != ih
    ensures Queue(s.queues, ih) <= Queue(BeginStep(s, i, now).queues, ih)
  {
    if i in s.b.refs { RefKnown(s, i); }
    hide Core;
    StaleWaits(s, i);
    StaleGrows(s, i);
    hide DetachStale;
    var u := DetachStale(s, i);
    assert Queue(s.queues, ih) <= Queue(u.queues, ih);
    hide Grows, MaybeDestroy, Live;
    if i in s.b.refs && Live(s.b, s.b.refs[i]) {
      assert Queue(Pop(s, i).queues, ih) == Queue(s.queues, ih);
    } else {
      assert Queue(Advance(u, i, Getting(Head(s, i).pk)).queues, ih) == Queue(u.queues, ih);
    }
  }

  lemma RepointGrows(s: State, pk: Pk, r: Ref, now: nat)
    requires Core(s) && r in s.b.recs && (pk in s.b.current ==> s.b.current[pk] in s.b.recs)
    ensures Grows(s.queues, Repoint(s, pk, r, now).queues)
  {
    LeaveGrows(s, pk);
    hide Core, Leave;
  }

  lemma ReleaseGrows(s: State, h: nat, order: seq<Ref>, max: nat)
    requires Core(s) && Enabled(s, Release(h, order))
    ensures Grows(s.queues, Next(s, Release(h, order), max).queues)
  {
    ReleaseNext(s, h, order, max);
    LetGoGrows(s, h);
    hide Core, Next, Enabled, Cap, ByUse, LetGo, Grows;
    CapGrows(LetGo(s, h), order, max);
    GrowsTwice(s.queues, LetGo(s, h).queues, Cap(LetGo(s, h), order, max).queues);
  }

  lemma LetGoGrows(s: State, h: nat)
    requires h in s.readers && s.readers[h].ref in s.b.recs && s.b.recs[s.readers[h].ref].readers > 0
    ensures Grows(s.queues, LetGo(s, h).queues)
  {
    MaybeDestroyGrows(s.(b := Drop(s.b, s.readers[h].ref), readers := s.readers - {h}), s.readers[h].ref);
    hide MaybeDestroy;
  }

  /** A load that ends makes its record the publisher's current one, and the cap follows. */
  lemma RetainNext(s: State, h: nat, now: nat, order: seq<Ref>, max: nat)
    requires Core(s) && Enabled(s, Retain(h, now, order))
    ensures h in s.readers
    ensures Current(s, h) ==> Next(s, Retain(h, now, order), max) == s
    ensures !Current(s, h) ==>
      var pk, r := s.readers[h].pk, s.readers[h].ref;
      && r in s.b.recs && (pk in s.b.current ==> s.b.current[pk] in s.b.recs) && ByUse(Repoint(s, pk, r, now).b, order)
      && Next(s, Retain(h, now, order), max) == Cap(Repoint(s, pk, r, now), order, max)
  {
    hide Core, Cap, ByUse, Repoint;
    if s.readers[h].pk in s.b.current { CurrentKnown(s, s.readers[h].pk); }
    HoldsCore(s, h);
  }

  lemma ReleaseNext(s: State, h: nat, order: seq<Ref>, max: nat)
    requires Core(s) && Enabled(s, Release(h, order))
    ensures h in s.readers && s.readers[h].ref in s.b.recs && s.b.recs[s.readers[h].ref].readers > 0
    ensures ByUse(LetGo(s, h).b, order) && Next(s, Release(h, order), max) == Cap(LetGo(s, h), order, max)
  {
    assert Counted(s.b, s.readers);
    hide Core, Counted, Cap, ByUse, LetGo;
    Holds(s, h);
  }

  lemma HoldsCore(s: State, h: nat)
    requires Core(s) && h in s.readers
    ensures s.readers[h].ref in s.b.recs
  {
    Holds(s, h);
  }

  lemma RetainGrows(s: State, pk: Pk, r: Ref, now: nat, order: seq<Ref>, max: nat)
    requires Core(s) && r in s.b.recs && (pk in s.b.current ==> s.b.current[pk] in s.b.recs)
    requires ByUse(Repoint(s, pk, r, now).b, order)
    ensures Grows(s.queues, Cap(Repoint(s, pk, r, now), order, max).queues)
  {
    hide Core, Repoint, Cap, ByUse, Grows;
    RepointGrows(s, pk, r, now);
    CapGrows(Repoint(s, pk, r, now), order, max);
    GrowsTwice(s.queues, Repoint(s, pk, r, now).queues, Cap(Repoint(s, pk, r, now), order, max).queues);
  }

  /** Operations of other infohashes leave this queue alone. */
  lemma AcquiringAppends(s: State, e: Event, ih: Ih, max: nat)
    requires Core(s) && Enabled(s, e) && !About(e, ih) && Acquiring(e)
    ensures Queue(s.queues, ih) <= Queue(Next(s, e, max).queues, ih)
  {
    if e.AcquireBegin? {
      BeginGrows(s, e.ih, e.now, ih);
      hide Core, BeginStep;
    } else {
      hide Core;
    }
  }

  lemma TorrentsAppend(s: State, e: Event, ih: Ih, max: nat)
    requires Core(s) && Enabled(s, e) && !About(e, ih) && !Acquiring(e) && !Using(e)
    ensures Queue(s.queues, ih) <= Queue(Next(s, e, max).queues, ih)
  {
    NextOf(s, e, max);
    hide Next, Enabled;
    if e.DestroyCheck? { HeadOwned(s, e.ih); }
    hide Heads, DistinctHeads, Counted, Retention, Registered, Exclusive;
  }

  /** Only its own queue moves a running operation on. */
  lemma OthersOnlyAppend(s: State, e: Event, ih: Ih, max: nat)
    requires Core(s) && Enabled(s, e) && !About(e, ih)
    ensures Queue(s.queues, ih) <= Queue(Next(s, e, max).queues, ih)
  {
    if Acquiring(e) {
      AcquiringAppends(s, e, ih, max);
    } else if !Using(e) {
      TorrentsAppend(s, e, ih, max);
    } else {
      NextOf(s, e, max);
      hide Next, Enabled, Cap, ByUse, Repoint, LetGo, Leave;
      match e
      case Retain(h, now, order) =>
        RetainNext(s, h, now, order, max);
        if !Current(s, h) { RetainGrows(s, s.readers[h].pk, s.readers[h].ref, now, order, max); }
        hide Core;
      case Release(h, order) =>
        ReleaseGrows(s, h, order, max);
        hide Core;
      case Retire(pk, only) =>
        LeaveGrows(s, pk);
      case Touched(pk, i, now) =>
    }
  }

  /** From its check to the removal of its directory a destroyed record has neither readers nor retainers. */
  lemma RemovalUndisturbed(s: State, e: Event, ih: Ih, max: nat)
    requires Inv(s, max) && Enabled(s, e) && Waiting(s, ih) && Head(s, ih).Removing? && !e.DestroyDone?
    ensures var t := Next(s, e, max);
      Waiting(t, ih) && Head(t, ih) == Head(s, ih) && Idle(t.b, Head(t, ih).ref) && !Live(t.b, Head(t, ih).ref)
  {
    StepKeeps(s, e, max);
    hide Next;
    assert !About(e, ih);
    OthersOnlyAppend(s, e, ih, max);
    HeadIdle(Next(s, e, max), ih);
  }
}
