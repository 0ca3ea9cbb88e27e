/**
 No generation directory is forgotten (src/node.ts:1158-1263): whatever the interleaving, the directory of an owned
 record nobody uses is waiting to be removed, being removed, or one whose removal failed.
 */
module CatalogDirs {
  import opened Options
  import opened CatalogBook
  import opened CatalogQueues
  import opened CatalogCap
  import opened CatalogSteps
  import opened CatalogRuns

  predicate Unused(b: Book, r: Ref) { Idle(b, r) && b.recs[r].owned }

  /** A record keeps its infohash, its ownership and its generation. */
  predicate SameKind(c: Rec, d: Rec) {
    c.ih == d.ih && c.owned == d.owned && c.gen == d.gen
  }

  /** Records stay, and one that becomes unused is queued for destruction at once. */
  ghost predicate Carries(s: State, t: State) {
    && (forall r :: r in s.b.recs ==> r in t.b.recs && SameKind(s.b.recs[r], t.b.recs[r]))
    && forall r :: Unused(t.b, r) ==> Unused(s.b, r) || Check(r) in Queue(t.queues, t.b.recs[r].ih)
  }

  lemma CarriesTwice(s: State, u: State, t: State)
    requires Carries(s, u) && Carries(u, t) && Grows(u.queues, t.queues)
    ensures Carries(s, t)
  {
    forall r | Unused(t.b, r) ensures Unused(s.b, r) || Check(r) in Queue(t.queues, t.b.recs[r].ih) {
      if Unused(u.b, r) && !Unused(s.b, r) {
        assert Queue(u.queues, u.b.recs[r].ih) <= Queue(t.queues, u.b.recs[r].ih);
      }
    }
  }

  /** The queues may be changed along with records nobody stops using. */
  lemma CarriesBook(s: State, t: State)
    requires t.b.recs.Keys == s.b.recs.Keys
    requires forall r :: r in s.b.recs ==> SameKind(s.b.recs[r], t.b.recs[r]) && (Idle(t.b, r) ==> Idle(s.b, r))
    ensures Carries(s, t)
  {}

  /** One record loses a user, and is queued if that was the last. */
  lemma CarriesDestroy(s: State, u: State, r: Ref)
    requires r in u.b.recs && u.b.recs.Keys == s.b.recs.Keys && u.queues == s.queues
    requires forall q :: q in s.b.recs ==>
      SameKind(s.b.recs[q], u.b.recs[q]) && (q != r && Idle(u.b, q) ==> Idle(s.b, q))
    ensures Carries(s, MaybeDestroy(u, r))
  {
    var t := MaybeDestroy(u, r);
    assert t.b.recs == u.b.recs;
    if Idle(u.b, r) && u.b.recs[r].owned {
      assert Queue(t.queues, u.b.recs[r].ih) == Queue(u.queues, u.b.recs[r].ih) + [Check(r)];
    }
  }

  lemma CarriesEvictOne(s: State, r: Ref)
    requires r in s.b.recs
    ensures Carries(s, EvictOne(s, r)) && Grows(s.queues, EvictOne(s, r).queues)
  {
    var u := s.(b := Detach(s.b, r));
    CarriesDestroy(s, u, r);
    MaybeDestroyGrows(u, r);
  }

  lemma EvictOneOwned(s: State, order: seq<Ref>)
    requires AllOwned(s.b, order) && order != []
    ensures AllOwned(EvictOne(s, order[0]).b, order[1..]) && AllOwned(s.b, order[1..])
  {
    var t := EvictOne(s, order[0]);
    assert t.b.recs.Keys == s.b.recs.Keys;
    assert forall r :: r in s.b.recs ==> t.b.recs[r].owned == s.b.recs[r].owned;
    assert forall i :: 0 <= i < |order[1..]| ==> order[1..][i] == order[i + 1];
  }

  lemma {:induction false} CarriesEvict(s: State, order: seq<Ref>, excess: nat)
    requires AllOwned(s.b, order)
    ensures Carries(s, Evict(s, order, excess)) && Grows(s.queues, Evict(s, order, excess).queues)
    decreases order
  {
    if order == [] || excess == 0 {
      CarriesBook(s, s);
    } else {
      EvictOneOwned(s, order);
      hide Carries, Grows, EvictOne, AllOwned;
      if s.b.recs[order[0]].readers > 0 {
        CarriesEvict(s, order[1..], excess);
      } else {
        var u := EvictOne(s, order[0]);
        CarriesEvictOne(s, order[0]);
        CarriesEvict(u, order[1..], excess - 1);
        CarriesTwice(s, u, Evict(s, order, excess));
        GrowsTwice(s.queues, u.queues, Evict(s, order, excess).queues);
      }
    }
  }

  lemma CarriesCap(s: State, order: seq<Ref>, max: nat)
    requires ByUse(s.b, order)
    ensures Carries(s, Cap(s, order, max)) && Grows(s.queues, Cap(s, order, max).queues)
  {
    if |order| > max {
      CarriesEvict(s, order, |order| - max);
    } else {
      CarriesBook(s, s);
    }
  }

  lemma CarriesLeave(s: State, pk: Pk)
    requires pk in s.b.current ==> s.b.current[pk] in s.b.recs
    ensures Carries(s, Leave(s, pk)) && Grows(s.queues, Leave(s, pk).queues)
      && Leave(s, pk).b.recs.Keys == s.b.recs.Keys
  {
    if pk in s.b.current {
      var u := s.(b := Unhold(s.b, pk));
      CarriesDestroy(s, u, s.b.current[pk]);
      MaybeDestroyGrows(u, s.b.current[pk]);
    } else {
      CarriesBook(s, s);
    }
  }

  lemma CarriesRepoint(s: State, pk: Pk, r: Ref, now: nat)
    requires r in s.b.recs && (pk in s.b.current ==> s.b.current[pk] in s.b.recs)
    ensures Carries(s, Repoint(s, pk, r, now)) && Grows(s.queues, Repoint(s, pk, r, now).queues)
  {
    var u := Leave(s, pk);
    CarriesLeave(s, pk);
    hide Leave;
    var t := u.(b := Hold(u.b, pk, r, now));
    assert t == Repoint(s, pk, r, now);
    CarriesBook(u, t);
    CarriesTwice(s, u, t);
  }

  lemma CarriesRetain(s: State, h: nat, now: nat, order: seq<Ref>, max: nat)
    requires Core(s) && Enabled(s, Retain(h, now, order))
    ensures Carries(s, Next(s, Retain(h, now, order), max))
  {
    RetainNext(s, h, now, order, max);
    hide Core, Enabled, Next, Grows, Repoint, Cap, ByUse;
    if Current(s, h) {
      CarriesBook(s, s);
    } else {
      hide Carries;
      var u := Repoint(s, s.readers[h].pk, s.readers[h].ref, now);
      CarriesRepoint(s, s.readers[h].pk, s.readers[h].ref, now);
      CarriesCap(u, order, max);
      CarriesTwice(s, u, Cap(u, order, max));
    }
  }

  lemma CarriesRelease(s: State, h: nat, order: seq<Ref>, max: nat)
    requires Core(s) && Enabled(s, Release(h, order))
    ensures Carries(s, Next(s, Release(h, order), max))
  {
    ReleaseNext(s, h, order, max);
    CarriesLetGo(s, h);
    hide Core, Enabled, Next, Carries, Grows, LetGo, Cap, ByUse;
    var u := LetGo(s, h);
    CarriesCap(u, order, max);
    CarriesTwice(s, u, Cap(u, order, max));
  }

  lemma CarriesLetGo(s: State, h: nat)
    requires h in s.readers && s.readers[h].ref in s.b.recs && s.b.recs[s.readers[h].ref].readers > 0
    ensures Carries(s, LetGo(s, h))
  {
    var r := s.readers[h].ref;
    CarriesDestroy(s, s.(b := Drop(s.b, r), readers := s.readers - {h}), r);
    hide Carries, MaybeDestroy;
  }

  lemma CarriesStale(s: State, ih: Ih)
    requires ih in s.b.refs ==> s.b.refs[ih] in s.b.recs
    ensures Carries(s, DetachStale(s, ih))
  {
    if ih in s.b.refs {
      var r := s.b.refs[ih];
      CarriesDestroy(s, s.(b := Unregister(Detach(s.b, r), ih)), r);
      hide Carries, MaybeDestroy;
    } else {
      CarriesBook(s, s);
    }
  }

  lemma CarriesAdmit(s: State, ih: Ih, r: Ref, pk: Pk, now: nat)
    requires Waiting(s, ih) && r in s.b.recs
    ensures Carries(s, Admit(Pop(s, ih), r, pk, now))
  {
    CarriesBook(s, Admit(Pop(s, ih), r, pk, now));
  }

  lemma CarriesBegin(s: State, ih: Ih, now: nat)
    requires Core(s) && Waiting(s, ih) && Head(s, ih).Acquire?
    ensures Carries(s, BeginStep(s, ih, now))
  {
    if ih in s.b.refs { RefKnown(s, ih); }
    hide Core;
    if ih in s.b.refs && Live(s.b, s.b.refs[ih]) {
      CarriesAdmit(s, ih, s.b.refs[ih], Head(s, ih).pk, now);
    } else {
      StaleWaits(s, ih);
      CarriesStale(s, ih);
      hide DetachStale, Carries;
      AdvanceCarries(s, DetachStale(s, ih), ih, Getting(Head(s, ih).pk));
    }
  }

  lemma AdvanceCarries(s: State, u: State, ih: Ih, t: Task)
    requires Carries(s, u) && Waiting(u, ih) && !Head(u, ih).Check?
    ensures Carries(s, Advance(u, ih, t))
  {
    var v := Advance(u, ih, t);
    forall r | Unused(v.b, r) && !Unused(s.b, r) ensures Check(r) in Queue(v.queues, v.b.recs[r].ih) {
      var q := Queue(u.queues, u.b.recs[r].ih);
      var k :| 0 <= k < |q| && q[k] == Check(r);
      assert Queue(v.queues, u.b.recs[r].ih)[k] == Check(r);
    }
  }

  lemma CarriesEnrol(s: State, t: State, r: Ref, c: Rec, ih: Ih)
    requires Waiting(s, ih) && r !in s.b.recs && c.readers == 1 && t.b.recs == s.b.recs[r := c]
    ensures Carries(s, t)
  {}

  lemma CarriesAcquiring(s: State, e: Event, max: nat)
    requires Core(s) && Enabled(s, e) && Acquiring(e)
    ensures Carries(s, Next(s, e, max))
  {
    var t := Next(s, e, max);
    if e.AcquireBegin? {
      CarriesBegin(s, e.ih, e.now);
    } else if e.AcquireFound? {
      hide Core;
      CarriesEnrol(s, t, e.r, Borrowed(e.ih, e.t, e.now), e.ih);
    } else if e.AcquireAdded? {
      hide Core;
      CarriesEnrol(s, t, e.r, Owned(e.ih, e.t, Head(s, e.ih).gen, e.now), e.ih);
    } else {
      hide Core;
      CarriesBook(s, t);
    }
  }

  lemma CarriesRetire(s: State, pk: Pk, only: Option<Ih>)
    requires Core(s)
    ensures Carries(s, RetireStep(s, pk, only))
  {
    if pk in s.b.current { CurrentKnown(s, pk); }
    CarriesLeave(s, pk);
    CarriesBook(s, s);
    hide Leave, Carries;
  }

  lemma CarriesCheck(s: State, ih: Ih)
    requires Core(s) && Waiting(s, ih) && Head(s, ih).Check?
    ensures Carries(s, CheckStep(s, ih))
  {
    CheckBook(s, ih);
    hide Core, CheckStep;
    CarriesBook(s, CheckStep(s, ih));
  }

  /** What changes no record's users. */
  predicate Aside(e: Event) { e.Touched? || e.DestroyDone? || e.Opened? || e.Closed? }

  lemma CarriesTouch(s: State, pk: Pk, ih: Ih, now: nat)
    requires Core(s)
    ensures Carries(s, TouchStep(s, pk, ih, now))
  {
    assert Named(s.b);
    hide Core;
    CarriesBook(s, TouchStep(s, pk, ih, now));
  }

  lemma SameRecords(s: State, t: State)
    requires t.b.recs == s.b.recs
    ensures Carries(s, t)
  {}

  lemma CarriesAside(s: State, e: Event, max: nat)
    requires Core(s) && Enabled(s, e) && Aside(e)
    ensures Carries(s, Next(s, e, max))
  {
    NextOf(s, e, max);
    if e.Touched? {
      hide Core, Enabled, Next, TouchStep, Carries;
      CarriesTouch(s, e.pk, e.ih, e.now);
    } else {
      assert Queued(s.b, s.queues);
      hide Core, Enabled, Next, Carries;
      SameRecords(s, Next(s, e, max));
    }
  }

  /** Every step keeps the records, and queues what becomes unused. */
  lemma StepCarries(s: State, e: Event, max: nat)
    requires Core(s) && Enabled(s, e)
    ensures Carries(s, Next(s, e, max))
  {
    if Acquiring(e) {
      CarriesAcquiring(s, e, max);
    } else if Aside(e) {
      CarriesAside(s, e, max);
    } else {
      hide Core, Carries, CheckStep, RetireStep, Cap, ByUse, BeginStep;
      match e
      case Retain(h, now, order) => CarriesRetain(s, h, now, order, max);
      case Release(h, order) => CarriesRelease(s, h, order, max);
      case Retire(pk, only) => CarriesRetire(s, pk, only);
      case DestroyCheck(ih) => CarriesCheck(s, ih);
    }
  }

  // ---- directories ------------------------------------------------------------------------------------------

  /** The destruction of r is queued or under way. */
  predicate Tended(s: State, r: Ref)
    requires r in s.b.recs
  {
    var q := Queue(s.queues, s.b.recs[r].ih);
    Check(r) in q || Removing(r) in q
  }

  ghost predicate DirsTended(s: State, stuck: set<nat>) {
    forall r :: Unused(s.b, r) && s.b.recs[r].gen in s.b.dirs && s.b.recs[r].gen !in stuck ==> Tended(s, r)
  }

  /** The generation whose directory this step failed to remove. */
  ghost function StuckBy(s: State, e: Event): set<nat>
    requires Core(s) && Enabled(s, e)
  {
    if e.DestroyDone? && !e.removed then HeadOwned(s, e.ih); {s.b.recs[Head(s, e.ih).ref].gen} else {}
  }

  /** The rest of a queue stays when its head moves on. */
  lemma TailStays(s: State, e: Event, ih: Ih, max: nat)
    requires Core(s) && Enabled(s, e) && About(e, ih)
    ensures Waiting(s, ih) && forall k :: 0 < k < |Queue(s.queues, ih)| ==>
      Queue(s.queues, ih)[k] in Queue(Next(s, e, max).queues, ih)
  {
    var q, t := Queue(s.queues, ih), Next(s, e, max);
    if e.AcquireBegin? {
      BeginTail(s, ih, e.now);
    } else {
      assert Queue(t.queues, ih) == q[1..] || (|Queue(t.queues, ih)| == |q| && Queue(t.queues, ih)[1..] == q[1..]);
    }
  }

  lemma BeginTail(s: State, ih: Ih, now: nat)
    requires Core(s) && Waiting(s, ih) && Head(s, ih).Acquire?
    ensures forall k :: 0 < k < |Queue(s.queues, ih)| ==>
      Queue(s.queues, ih)[k] in Queue(BeginStep(s, ih, now).queues, ih)
  {
    if ih in s.b.refs { RefKnown(s, ih); }
    hide Core;
    var q, t := Queue(s.queues, ih), BeginStep(s, ih, now);
    if ih in s.b.refs && Live(s.b, s.b.refs[ih]) {
      assert Queue(t.queues, ih) == q[1..];
    } else {
      StaleWaits(s, ih);
      var u := DetachStale(s, ih);
      if ih in s.b.refs { MaybeDestroyGrows(s.(b := Unregister(Detach(s.b, s.b.refs[ih]), ih)), s.b.refs[ih]); }
      assert q <= Queue(u.queues, ih);
      hide DetachStale;
      assert forall k :: 0 < k < |q| ==> Queue(t.queues, ih)[k] == q[k];
    }
  }

  /** What is tended stays tended until its directory is gone or could not be removed. */
  lemma TendedStays(s: State, e: Event, r: Ref, max: nat)
    requires Core(s) && Enabled(s, e) && Unused(s.b, r) && Tended(s, r)
    requires var t := Next(s, e, max); r in t.b.recs && SameKind(s.b.recs[r], t.b.recs[r])
    ensures var t := Next(s, e, max);
      Tended(t, r) || (e.DestroyDone? && (t.b.recs[r].gen !in t.b.dirs || t.b.recs[r].gen in StuckBy(s, e)))
  {
    var ih := s.b.recs[r].ih;
    var q, t := Queue(s.queues, ih), Next(s, e, max);
    if !About(e, ih) {
      OthersOnlyAppend(s, e, ih, max);
      hide Core, Next, Enabled;
    } else {
      TailStays(s, e, ih, max);
      if q[0] == Check(r) || q[0] == Removing(r) { HeadMoves(s, e, r, max); }
      hide Core, Next, Enabled, StuckBy;
    }
  }

  /** What becomes of the running operation when it is about r. */
  lemma HeadMoves(s: State, e: Event, r: Ref, max: nat)
    requires Core(s) && Enabled(s, e) && Unused(s.b, r) && About(e, s.b.recs[r].ih)
    requires Waiting(s, s.b.recs[r].ih)
    requires Head(s, s.b.recs[r].ih) == Check(r) || Head(s, s.b.recs[r].ih) == Removing(r)
    ensures var t := Next(s, e, max);
      || Removing(r) in Queue(t.queues, s.b.recs[r].ih)
      || (e.DestroyDone? && (s.b.recs[r].gen !in t.b.dirs || s.b.recs[r].gen in StuckBy(s, e)))
  {
    var ih := s.b.recs[r].ih;
    HeadOwned(s, ih);
    assert e.DestroyCheck? || e.DestroyDone?;
    NextOf(s, e, max);
    assert Named(s.b) && Queued(s.b, s.queues);
    hide Core, Next, Enabled;
    if e.DestroyCheck? {
      assert Queue(Next(s, e, max).queues, ih)[0] == Removing(r);
    }
  }

  /** A directory of an unused record was there before. */
  lemma NoNewDir(s: State, e: Event, r: Ref, max: nat)
    requires Core(s) && Enabled(s, e) && Unused(s.b, r)
    requires var t := Next(s, e, max);
      r in t.b.recs && SameKind(s.b.recs[r], t.b.recs[r]) && t.b.recs[r].gen in t.b.dirs
    ensures s.b.recs[r].gen in s.b.dirs
  {
    if e.AcquireAdded? {
      assert HeadHolds(s.b, e.ih, Head(s, e.ih));
    } else {
      DirsOnlyShrink(s, e, max);
    }
  }

  lemma EvictDirs(s: State, order: seq<Ref>, excess: nat)
    requires AllOwned(s.b, order)
    ensures Evict(s, order, excess).b.dirs == s.b.dirs
    decreases order
  {
    if order != [] && excess != 0 { EvictOneOwned(s, order); }
  }

  lemma CapDirs(s: State, order: seq<Ref>, max: nat)
    requires ByUse(s.b, order)
    ensures Cap(s, order, max).b.dirs == s.b.dirs
  {
    if |order| > max { EvictDirs(s, order, |order| - max); }
  }

  lemma RetainDirs(s: State, h: nat, now: nat, order: seq<Ref>, max: nat)
    requires Core(s) && Enabled(s, Retain(h, now, order))
    ensures Next(s, Retain(h, now, order), max).b.dirs == s.b.dirs
  {
    RetainNext(s, h, now, order, max);
    hide Core, Enabled, Next, Repoint, Cap, ByUse;
    if !Current(s, h) {
      RepointDirs(s, s.readers[h].pk, s.readers[h].ref, now);
      CapDirs(Repoint(s, s.readers[h].pk, s.readers[h].ref, now), order, max);
    }
  }

  lemma RepointDirs(s: State, pk: Pk, r: Ref, now: nat)
    requires r in s.b.recs && (pk in s.b.current ==> s.b.current[pk] in s.b.recs)
    ensures Repoint(s, pk, r, now).b.dirs == s.b.dirs
  {}

  lemma BeginDirs(s: State, ih: Ih, now: nat)
    requires Waiting(s, ih) && Head(s, ih).Acquire? && (ih in s.b.refs ==> s.b.refs[ih] in s.b.recs)
    ensures BeginStep(s, ih, now).b.dirs == s.b.dirs
  {}

  lemma ReleaseDirs(s: State, h: nat, order: seq<Ref>, max: nat)
    requires Core(s) && Enabled(s, Release(h, order))
    ensures Next(s, Release(h, order), max).b.dirs == s.b.dirs
  {
    ReleaseNext(s, h, order, max);
    assert LetGo(s, h).b.dirs == s.b.dirs;
    hide Core, Enabled, Next, LetGo, Cap, ByUse;
    CapDirs(LetGo(s, h), order, max);
  }

  lemma RetireDirs(s: State, pk: Pk, only: Option<Ih>)
    requires Core(s)
    ensures RetireStep(s, pk, only).b.dirs == s.b.dirs
  {
    assert Named(s.b);
    hide Core;
    LeaveDirs(s, pk);
    hide Leave;
  }

  lemma LeaveDirs(s: State, pk: Pk)
    requires pk in s.b.current ==> s.b.current[pk] in s.b.recs
    ensures Leave(s, pk).b.dirs == s.b.dirs
  {}

  lemma DestroyDirs(s: State, e: Event, max: nat)
    requires Core(s) && Enabled(s, e) && (e.DestroyCheck? || e.DestroyDone?)
    ensures Next(s, e, max).b.dirs <= s.b.dirs
  {
    NextOf(s, e, max);
    if e.DestroyCheck? { CheckBook(s, e.ih); }
    assert Queued(s.b, s.queues);
    hide Core, Enabled, Next, CheckStep;
  }

  lemma AsideDirs(s: State, e: Event, max: nat)
    requires Core(s) && Enabled(s, e) && !e.AcquireAdded? && (Acquiring(e) || Aside(e)) && !e.AcquireBegin?
      && !e.DestroyDone?
    ensures Next(s, e, max).b.dirs == s.b.dirs
  {
    hide QueuesOk, Counted, Retention, Registered, Exclusive;
  }

  lemma DirsOnlyShrink(s: State, e: Event, max: nat)
    requires Core(s) && Enabled(s, e) && !e.AcquireAdded?
    ensures Next(s, e, max).b.dirs <= s.b.dirs
  {
    if e.DestroyCheck? || e.DestroyDone? {
      DestroyDirs(s, e, max);
    } else if e.AcquireBegin? {
      if e.ih in s.b.refs { RefKnown(s, e.ih); }
      hide Core, BeginStep;
      BeginDirs(s, e.ih, e.now);
    } else if Acquiring(e) || Aside(e) {
      AsideDirs(s, e, max);
    } else {
      hide Core, RetireStep, Cap, ByUse, Repoint;
      match e
      case Retain(h, now, order) => RetainDirs(s, h, now, order, max);
      case Release(h, order) => ReleaseDirs(s, h, order, max);
      case Retire(pk, only) => RetireDirs(s, pk, only);
    }
  }

  lemma StepTends(s: State, e: Event, max: nat, stuck: set<nat>)
    requires Core(s) && Enabled(s, e) && DirsTended(s, stuck)
    ensures DirsTended(Next(s, e, max), stuck + StuckBy(s, e))
  {
    var t := Next(s, e, max);
    StepCarries(s, e, max);
    hide Core, Enabled, Next;
    forall r | Unused(t.b, r) && t.b.recs[r].gen in t.b.dirs && t.b.recs[r].gen !in stuck + StuckBy(s, e)
      ensures Tended(t, r)
    {
      if Check(r) !in Queue(t.queues, t.b.recs[r].ih) {
        assert Unused(s.b, r);
        NoNewDir(s, e, r, max);
        TendedStays(s, e, r, max);
      }
    }
  }

  /** The generations whose removal failed during a run. */
  ghost function Stuck(s: State, es: seq<Event>, t: State, max: nat): set<nat>
    requires Reaches(s, es, t, max)
    decreases es
  {
    if es == [] then {} else StuckBy(s, es[0]) + Stuck(Next(s, es[0], max), es[1..], t, max)
  }

  lemma {:induction false} RunTends(s: State, es: seq<Event>, t: State, max: nat, stuck: set<nat>)
    requires Inv(s, max) && Reaches(s, es, t, max) && DirsTended(s, stuck)
    ensures DirsTended(t, stuck + Stuck(s, es, t, max))
    decreases es
  {
    if es == [] {
      assert stuck + {} == stuck;
    } else {
      StepKeeps(s, es[0], max);
      StepTends(s, es[0], max, stuck);
      hide Inv, Core, Enabled, Next, DirsTended, StuckBy;
      var u := Next(s, es[0], max);
      RunTends(u, es[1..], t, max, stuck + StuckBy(s, es[0]));
      assert stuck + StuckBy(s, es[0]) + Stuck(u, es[1..], t, max) == stuck + Stuck(s, es, t, max);
    }
  }

  lemma QuietDirs(t: State, max: nat, stuck: set<nat>)
    requires Inv(t, max) && DirsTended(t, stuck) && Quiet(t)
    ensures forall r ::
      && r in t.b.recs && t.b.recs[r].owned && t.b.recs[r].gen in t.b.dirs && t.b.recs[r].gen !in stuck
      ==> exists pk :: pk in t.b.current && t.b.current[pk] == r
  {
    RetentionExact(t, max);
    hide Inv;
    forall r | r in t.b.recs && t.b.recs[r].owned && t.b.recs[r].gen in t.b.dirs && t.b.recs[r].gen !in stuck
      ensures exists pk :: pk in t.b.current && t.b.current[pk] == r
    {
      assert Holders(t.readers, r) == {};
      assert Queue(t.queues, t.b.recs[r].ih) == [];
      assert !Tended(t, r);
      assert t.b.recs[r].retainedBy != {};
      var pk :| pk in t.b.recs[r].retainedBy;
      assert pk in t.b.current && t.b.current[pk] == r;
    }
  }

  /**
   In every reachable state the directory of an owned record nobody uses is gone, was impossible to remove, or has its
   removal queued or under way; so once the queues have drained, what is left belongs to current catalogs.
   */
  lemma NoDirectoryForgotten(es: seq<Event>, t: State, max: nat)
    requires Reaches(Initial(), es, t, max)
    ensures DirsTended(t, Stuck(Initial(), es, t, max))
    ensures Quiet(t) ==> forall r ::
      && r in t.b.recs && t.b.recs[r].owned && t.b.recs[r].gen in t.b.dirs
      && t.b.recs[r].gen !in Stuck(Initial(), es, t, max)
      ==> exists pk :: pk in t.b.current && t.b.current[pk] == r
  {
    InitialOk(max);
    RunKeeps(Initial(), es, t, max);
    var stuck := Stuck(Initial(), es, t, max);
    assert DirsTended(Initial(), {});
    hide Reaches, Inv, Stuck, DirsTended, Quiet, Initial;
    RunTends(Initial(), es, t, max, {});
    assert {} + stuck == stuck;
    if Quiet(t) { QuietDirs(t, max, stuck); }
  }
}
