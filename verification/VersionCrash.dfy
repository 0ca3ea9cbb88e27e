/**
 Crash consistency of version promotion: whatever effect an import or a recovery is stopped after, the next
 completed recovery leaves pointer, link and share together on the old version or together on the new one.
 */
module VersionCrash {
  import opened Options
  import opened VersionDisk

  function Journaled(d: Disk): set<Version> {
    set v | v in d.pending && v in d.dirs
  }

  /** No promotion is under way: pointer, link and share agree, and the pointed-to directory holds that content. */
  ghost predicate Settled(d: Disk) {
    && Journaled(d) == {}
    && match d.ptr
       case None => d.link == None && d.share == None
       case Some(p) => Holds(d, p) && d.link == Some(p.version) && d.share == Some(p.ih)
  }

  predicate Holds(d: Disk, p: Pointer) {
    p.version in d.dirs && d.dirs[p.version] == p.ih
  }

  /** Every state from which recovery can still settle the import of content ih as version v over `was`. */
  ghost predicate Mid(d: Disk, was: Disk, v: Version, ih: Ih) {
    && (d.ptr == was.ptr || d.ptr == Some(Pointer(v, ih)))
    && Journaled(d) <= {v}
    && match d.ptr
       case Some(p) => Holds(d, p) && (d.link == Some(p.version) || d.link == was.link)
       case None =>
         && d.link == None == was.link
         && (d.share == None || (d.share == Some(ih) && Journaled(d) == {v} && d.dirs[v] == ih))
  }

  /** Every prefix of es leaves such a state. */
  ghost predicate Along(d: Disk, es: seq<Effect>, was: Disk, v: Version, ih: Ih)
    decreases es
  {
    Mid(d, was, v, ih) && (es != [] ==> Along(Apply(d, es[0]), es[1..], was, v, ih))
  }

  lemma {:induction false} AlongAppend(d: Disk, es: seq<Effect>, fs: seq<Effect>, was: Disk, v: Version, ih: Ih)
    requires Along(d, es, was, v, ih) && Along(Run(d, es), fs, was, v, ih)
    ensures Along(d, es + fs, was, v, ih)
    decreases es
  {
    hide Mid;
    if es == [] {
      assert es + fs == fs;
    } else {
      assert (es + fs)[0] == es[0] && (es + fs)[1..] == es[1..] + fs;
      AlongAppend(Apply(d, es[0]), es[1..], fs, was, v, ih);
    }
  }

  lemma {:induction false} AlongPrefix(d: Disk, es: seq<Effect>, n: nat, was: Disk, v: Version, ih: Ih)
    requires Along(d, es, was, v, ih) && n <= |es|
    ensures Mid(Run(d, es[..n]), was, v, ih)
    decreases es
  {
    hide Mid;
    if n > 0 {
      assert es[..n][0] == es[0] && es[..n][1..] == es[1..][..n - 1];
      AlongPrefix(Apply(d, es[0]), es[1..], n - 1, was, v, ih);
    } else {
      assert es[..n] == [];
    }
  }

  lemma AlongOne(d: Disk, e: Effect, was: Disk, v: Version, ih: Ih)
    requires Mid(d, was, v, ih) && Mid(Apply(d, e), was, v, ih)
    ensures Along(d, [e], was, v, ih) && Run(d, [e]) == Apply(d, e)
  {
    assert [e][1..] == [];
    assert Along(Apply(d, e), [], was, v, ih);
  }

  /** One more effect in front. */
  lemma AlongCons(d: Disk, e: Effect, es: seq<Effect>, was: Disk, v: Version, ih: Ih)
    requires Mid(d, was, v, ih) && Along(Apply(d, e), es, was, v, ih)
    ensures Along(d, [e] + es, was, v, ih) && Run(d, [e] + es) == Run(Apply(d, e), es)
  {
    assert ([e] + es)[0] == e && ([e] + es)[1..] == es;
  }

  // ---- pruning ---------------------------------------------------------------------------------------

  /** Everything but the directories. */
  predicate SameButDirs(d: Disk, c: Disk) {
    c.ptr == d.ptr && c.link == d.link && c.share == d.share && c.pending == d.pending && c.records == d.records
  }

  /** Where pruning is safe: the pointed-to directory is kept, and nothing waits to be completed. */
  ghost predicate Prunable(d: Disk, keep: set<Version>) {
    (d.ptr.Some? ==> d.ptr.value.version in keep) && (d.ptr.None? ==> d.share == None)
  }

  lemma PruneOne(d: Disk, x: Version, keep: set<Version>, w: World, was: Disk, v: Version, ih: Ih)
    requires Mid(d, was, v, ih) && Prunable(d, keep) && !Spares(d, keep, w, x)
    ensures var es := [Content(x, w.junk), RmDir(x)];
      Along(d, es, was, v, ih) && SameButDirs(d, Run(d, es)) && Run(d, es).dirs == d.dirs - {x}
  {
    var d1 := Apply(d, Content(x, w.junk));
    var d2 := Apply(d1, RmDir(x));
    assert Journaled(d1) == Journaled(d);
    assert Journaled(d2) == Journaled(d);
    AlongOne(d1, RmDir(x), was, v, ih);
    AlongCons(d, Content(x, w.junk), [RmDir(x)], was, v, ih);
    assert [Content(x, w.junk)] + [RmDir(x)] == [Content(x, w.junk), RmDir(x)];
    assert d2.dirs == d.dirs - {x};
  }

  lemma {:induction false} PruneFrom(d: Disk, c: Disk, listing: seq<Version>, keep: set<Version>, w: World)
    requires SameButDirs(d, c)
    ensures Prune(d, listing, keep, w) == Prune(c, listing, keep, w)
    decreases listing
  {
    if listing == [] {
    } else {
      PruneFrom(d, c, listing[1..], keep, w);
    }
  }

  /** What pruning removes. */
  function Doomed(d: Disk, listing: seq<Version>, keep: set<Version>, w: World): set<Version> {
    set x | x in listing && !Spares(d, keep, w, x)
  }

  lemma AlongNone(d: Disk, was: Disk, v: Version, ih: Ih)
    requires Mid(d, was, v, ih)
    ensures Along(d, [], was, v, ih) && Run(d, []) == d
  {
    hide Mid;
  }

  lemma DoomedStep(d: Disk, listing: seq<Version>, keep: set<Version>, w: World)
    requires listing != []
    ensures Doomed(d, listing, keep, w)
      == (if Spares(d, keep, w, listing[0]) then {} else {listing[0]}) + Doomed(d, listing[1..], keep, w)
  {
    assert listing == [listing[0]] + listing[1..];
    hide Spares;
  }

  lemma DoomedNone(d: Disk, keep: set<Version>, w: World)
    ensures Doomed(d, [], keep, w) == {}
  {}

  lemma DoomedSame(d: Disk, c: Disk, listing: seq<Version>, keep: set<Version>, w: World)
    requires SameButDirs(d, c)
    ensures Doomed(d, listing, keep, w) == Doomed(c, listing, keep, w)
  {}

  lemma {:induction false} PruneAlong(d: Disk, listing: seq<Version>, keep: set<Version>, w: World, was: Disk,
                                      v: Version, ih: Ih)
    requires Mid(d, was, v, ih) && Prunable(d, keep)
    ensures Along(d, Prune(d, listing, keep, w), was, v, ih)
    ensures SameButDirs(d, Run(d, Prune(d, listing, keep, w)))
    ensures Run(d, Prune(d, listing, keep, w)).dirs == d.dirs - Doomed(d, listing, keep, w)
    decreases listing
  {
    hide Mid, Along, Run, Doomed;
    if listing == [] {
      AlongNone(d, was, v, ih);
      DoomedNone(d, keep, w);
      assert d.dirs - {} == d.dirs;
    } else {
      var x, rest := listing[0], listing[1..];
      DoomedStep(d, listing, keep, w);
      if Spares(d, keep, w, x) {
        assert Prune(d, listing, keep, w) == [] + Prune(d, rest, keep, w) == Prune(d, rest, keep, w);
        assert {} + Doomed(d, rest, keep, w) == Doomed(d, rest, keep, w);
        PruneAlong(d, rest, keep, w, was, v, ih);
      } else {
        var es := [Content(x, w.junk), RmDir(x)];
        var c := Run(d, es);
        PruneOne(d, x, keep, w, was, v, ih);
        AlongEnd(d, es, was, v, ih);
        PruneFrom(d, c, rest, keep, w);
        PruneAlong(c, rest, keep, w, was, v, ih);
        AlongAppend(d, es, Prune(c, rest, keep, w), was, v, ih);
        RunAppend(d, es, Prune(c, rest, keep, w));
        DoomedSame(d, c, rest, keep, w);
        assert d.dirs - {x} - Doomed(c, rest, keep, w) == d.dirs - ({x} + Doomed(c, rest, keep, w));
      }
    }
  }

  // ---- recovery ----------------------------------------------------------------------------------------

  lemma JournalStepAlong(d: Disk, x: Version, was: Disk, v: Version, ih: Ih)
    requires Mid(d, was, v, ih) && x in d.dirs
    ensures Along(d, JournalStep(d, x), was, v, ih)
    ensures var c := Run(d, JournalStep(d, x));
      && Mid(c, was, v, ih) && c.dirs == d.dirs && c.link == d.link && c.records == d.records && c.share == d.share
      && c.pending == d.pending - {x}
      && (x in d.pending && d.ptr.None? ==> c.ptr.Some? || c.share.None?)
      && (d.ptr.Some? ==> c.ptr == d.ptr)
      && (d.ptr.None? && c.ptr.Some? ==> c.share == Some(c.ptr.value.ih))
  {
    if x !in d.pending {
      assert Run(d, []) == d;
      assert d.pending - {x} == d.pending;
    } else {
      assert x in Journaled(d);
      assert x == v;
      var d1 := Apply(d, RmPending(x));
      if d.share.Some? && d.ptr.None? {
        var p := Pointer(x, d.share.value);
        var c := Apply(d, WritePointer(p));
        assert Journaled(Apply(c, RmPending(x))) <= Journaled(c) == Journaled(d);
        AlongOne(c, RmPending(x), was, v, ih);
        AlongCons(d, WritePointer(p), [RmPending(x)], was, v, ih);
        assert [WritePointer(p)] + [RmPending(x)] == [WritePointer(p), RmPending(x)];
      } else {
        assert Journaled(d1) <= Journaled(d);
        AlongOne(d, RmPending(x), was, v, ih);
      }
    }
  }

  lemma {:induction false} JournalAlong(d: Disk, listing: seq<Version>, was: Disk, v: Version, ih: Ih)
    requires Mid(d, was, v, ih) && forall x :: x in listing ==> x in d.dirs
    ensures Along(d, Journal(d, listing), was, v, ih)
    ensures var c := Run(d, Journal(d, listing));
      && Mid(c, was, v, ih) && c.dirs == d.dirs && c.link == d.link && c.records == d.records && c.share == d.share
      && c.pending == d.pending - (set x | x in listing)
      && (d.ptr.Some? ==> c.ptr == d.ptr)
    decreases listing
  {
    if listing == [] {
      assert (set x | x in listing) == {};
      assert d.pending - {} == d.pending;
    } else {
      var step := JournalStep(d, listing[0]);
      JournalStepAlong(d, listing[0], was, v, ih);
      hide Mid, JournalStep;
      var c := Run(d, step);
      JournalAlong(c, listing[1..], was, v, ih);
      AlongAppend(d, step, Journal(c, listing[1..]), was, v, ih);
      RunAppend(d, step, Journal(c, listing[1..]));
      assert listing == [listing[0]] + listing[1..];
    }
  }

  /** Nothing waits for completion once the journal has been read. */
  lemma JournalResolves(d: Disk, listing: seq<Version>, was: Disk, v: Version, ih: Ih)
    requires Mid(d, was, v, ih) && Lists(d, listing)
    ensures Journaled(Run(d, Journal(d, listing))) == {}
    ensures Run(d, Journal(d, listing)).ptr.None? ==> Run(d, Journal(d, listing)).share == None
  {
    JournalAlong(d, listing, was, v, ih);
    assert forall x :: x in listing <==> x in d.dirs.Keys;
  }

  /** Relinking to the pointed-to version and dropping its staging record. */
  lemma RelinkAlong(d: Disk, was: Disk, v: Version, ih: Ih)
    requires Mid(d, was, v, ih) && Journaled(d) == {} && d.ptr.Some?
    ensures var x := d.ptr.value.version;
      var es := (if d.link != Some(x) then [SetLink(x)] else []) + [RmRecord(x)];
      var e := d.(link := Some(x), records := d.records - {x});
      Along(d, es, was, v, ih) && Run(d, es) == e && Mid(e, was, v, ih) && Journaled(e) == {}
  {
    var x := d.ptr.value.version;
    var c := Apply(d, SetLink(x));
    var e := Apply(c, RmRecord(x));
    assert Journaled(c) == Journaled(d) && Journaled(e) == Journaled(d);
    AlongOne(c, RmRecord(x), was, v, ih);
    if d.link != Some(x) {
      AlongCons(d, SetLink(x), [RmRecord(x)], was, v, ih);
    } else {
      assert c == d;
      assert [] + [RmRecord(x)] == [RmRecord(x)];
    }
  }

  lemma RepairAlong(d: Disk, listing: seq<Version>, w: World, was: Disk, v: Version, ih: Ih)
    requires Mid(d, was, v, ih) && Journaled(d) == {}
    ensures Along(d, Repair(d, listing, w), was, v, ih)
    ensures var c := Run(d, Repair(d, listing, w));
      && Mid(c, was, v, ih) && Journaled(c) == {} && c.ptr == d.ptr && c.share == d.share && c.pending == d.pending
      && (c.ptr.Some? ==> c.link == Some(c.ptr.value.version) && c.records == d.records - {c.ptr.value.version})
      && (c.ptr.None? ==> c.records == d.records && c.dirs == d.dirs - Doomed(d, listing, {}, w))
  {
    if d.ptr.None? {
      assert Prunable(d, {});
      hide Mid, Along, Run, Prune, Doomed;
      PruneAlong(d, listing, {}, w, was, v, ih);
      AlongEnd(d, Prune(d, listing, {}, w), was, v, ih);
    } else {
      var x := d.ptr.value.version;
      var head := (if d.link != Some(x) then [SetLink(x)] else []) + [RmRecord(x)];
      var e := d.(link := Some(x), records := d.records - {x});
      RelinkAlong(d, was, v, ih);
      hide Mid, Along, Run, Prune, Doomed;
      var tail := Prune(e, listing, {x}, w);
      PruneAlong(e, listing, {x}, w, was, v, ih);
      PruneLink(e, d.link, listing, {x}, w);
      assert e.(link := d.link) == d.(records := d.records - {x});
      AlongAppend(d, head, tail, was, v, ih);
      RunAppend(d, head, tail);
      assert Repair(d, listing, w) == head + tail;
      AlongEnd(d, Repair(d, listing, w), was, v, ih);
    }
  }

  lemma {:induction false} PruneLink(d: Disk, link: Option<Version>, listing: seq<Version>, keep: set<Version>,
                                     w: World)
    ensures Prune(d.(link := link), listing, keep, w) == Prune(d, listing, keep, w)
    decreases listing
  {
    if listing == [] {
    } else {
      PruneLink(d, link, listing[1..], keep, w);
    }
  }

  lemma AlongEnd(d: Disk, es: seq<Effect>, was: Disk, v: Version, ih: Ih)
    requires Along(d, es, was, v, ih)
    ensures Mid(Run(d, es), was, v, ih)
  {
    AlongPrefix(d, es, |es|, was, v, ih);
    assert es[..|es|] == es;
  }

  lemma ReconcileAlong(d: Disk, dropped: bool, listing: seq<Version>, w: World, was: Disk, v: Version, ih: Ih)
    requires Mid(d, was, v, ih) && Journaled(d) == {} && (d.ptr.None? ==> d.share == None)
    requires d.ptr.Some? ==> d.link == Some(d.ptr.value.version)
    ensures Along(d, Reconcile(d, dropped, listing, w), was, v, ih)
    ensures var c := Run(d, Reconcile(d, dropped, listing, w));
      && Settled(c) && c.ptr == d.ptr && c.records == d.records && c.pending == d.pending
      && (c.ptr.Some? ==> c.dirs == d.dirs - Doomed(d, listing, {c.ptr.value.version}, w))
      && (c.ptr.None? ==> c.dirs == d.dirs)
  {
    var d1 := Apply(d, WriteShare(None));
    assert Journaled(d1) == Journaled(d);
    var head := if dropped then [WriteShare(None)] else [];
    AlongOne(d, WriteShare(None), was, v, ih);
    var c := Run(d, head);
    assert Along(d, head, was, v, ih) && c == if dropped then d1 else d;
    if d.ptr.None? {
      assert head + [] == head;
    } else {
      var x := d.ptr.value.version;
      var e := Apply(c, WriteShare(Some(d.ptr.value.ih)));
      assert Journaled(e) == Journaled(d);
      var tail := Prune(e, listing, {x}, w);
      PruneAlong(e, listing, {x}, w, was, v, ih);
      PruneShare(d, e.share, listing, {x}, w);
      assert d.(share := e.share) == e;
      AlongCons(c, WriteShare(Some(d.ptr.value.ih)), tail, was, v, ih);
      AlongAppend(d, head, [WriteShare(Some(d.ptr.value.ih))] + tail, was, v, ih);
      RunAppend(d, head, [WriteShare(Some(d.ptr.value.ih))] + tail);
      AlongEnd(d, Reconcile(d, dropped, listing, w), was, v, ih);
      assert Doomed(e, listing, {x}, w) == Doomed(d, listing, {x}, w);
    }
  }

  lemma {:induction false} PruneShare(d: Disk, share: Option<Ih>, listing: seq<Version>, keep: set<Version>, w: World)
    ensures Prune(d.(share := share), listing, keep, w) == Prune(d, listing, keep, w)
    decreases listing
  {
    if listing == [] {
    } else {
      PruneShare(d, share, listing[1..], keep, w);
    }
  }

  /** Recovery settles the import, on the old version or on the new, and may itself be stopped anywhere. */
  lemma RecoverAlong(d: Disk, l: Listings, w: World, w2: World, was: Disk, v: Version, ih: Ih)
    requires Mid(d, was, v, ih) && Listed(d, l, w)
    ensures Along(d, Recover(d, l, w, w2), was, v, ih)
    ensures Settled(Run(d, Recover(d, l, w, w2)))
  {
    var j := Journal(d, l.journal);
    var d1 := Resolved(d, l);
    JournalAlong(d, l.journal, was, v, ih);
    JournalResolves(d, l.journal, was, v, ih);
    var r := Repair(d1, l.prune, w);
    var d2 := Repaired(d, l, w);
    RepairAlong(d1, l.prune, w, was, v, ih);
    var s := Reconcile(d2, Dropped(d, l), l.again, w2);
    ReconcileAlong(d2, Dropped(d, l), l.again, w2, was, v, ih);
    hide Mid, Settled, Along, Journal, Repair, Reconcile;
    AlongAppend(d1, r, s, was, v, ih);
    RunAppend(d1, r, s);
    AlongAppend(d, j, r + s, was, v, ih);
    RunAppend(d, j, r + s);
    assert j + (r + s) == j + r + s;
  }

  predicate Tidy(d: Disk, keep: set<Version>, w: World) {
    forall x :: x in d.dirs ==> Spares(d, keep, w, x)
  }

  /** What a completed recovery leaves behind has a reason to stay. */
  lemma RecoverTidies(d: Disk, l: Listings, w: World, w2: World, was: Disk, v: Version, ih: Ih)
    requires Mid(d, was, v, ih) && Listed(d, l, w)
    ensures var c := Run(d, Recover(d, l, w, w2));
      match c.ptr
      case Some(p) => p.version !in c.records && Tidy(c, {p.version}, w2)
      case None => Tidy(c, {}, w)
  {
    var j := Journal(d, l.journal);
    var d1 := Resolved(d, l);
    JournalAlong(d, l.journal, was, v, ih);
    JournalResolves(d, l.journal, was, v, ih);
    var r := Repair(d1, l.prune, w);
    var d2 := Repaired(d, l, w);
    RepairAlong(d1, l.prune, w, was, v, ih);
    var s := Reconcile(d2, Dropped(d, l), l.again, w2);
    ReconcileAlong(d2, Dropped(d, l), l.again, w2, was, v, ih);
    hide Mid, Settled, Along, Journal, Repair, Reconcile;
    RunAppend(d1, r, s);
    RunAppend(d, j, r + s);
    assert j + (r + s) == j + r + s;
    var c := Run(d2, s);
    assert c == Run(d, Recover(d, l, w, w2));
    assert forall x :: x in l.again <==> x in d2.dirs.Keys;
    assert forall x :: x in l.prune <==> x in d1.dirs.Keys;
  }

  /** Pruning a tidy disk removes nothing. */
  lemma {:induction false} PruneNothing(d: Disk, listing: seq<Version>, keep: set<Version>, w: World)
    requires Tidy(d, keep, w) && forall x :: x in listing ==> x in d.dirs
    ensures Prune(d, listing, keep, w) == []
    decreases listing
  {
    if listing == [] {
    } else {
      PruneNothing(d, listing[1..], keep, w);
    }
  }

  lemma {:induction false} JournalNothing(d: Disk, listing: seq<Version>)
    requires Journaled(d) == {} && forall x :: x in listing ==> x in d.dirs
    ensures Journal(d, listing) == [] && !AnyDrop(d, listing)
    decreases listing
  {
    if listing == [] {
    } else {
      assert listing[0] !in d.pending by { assert listing[0] !in Journaled(d); }
      JournalNothing(d, listing[1..]);
    }
  }

  lemma RecoverParts(d: Disk, l: Listings, w: World, w2: World)
    ensures Run(d, Recover(d, l, w, w2)) == Run(Repaired(d, l, w),
      Reconcile(Repaired(d, l, w), Dropped(d, l), l.again, w2))
  {
    hide Journal, Repair, Reconcile, AnyDrop;
    var j, r := Journal(d, l.journal), Repair(Resolved(d, l), l.prune, w);
    var s := Reconcile(Repaired(d, l, w), Dropped(d, l), l.again, w2);
    RunAppend(d, j, r + s);
    RunAppend(Resolved(d, l), r, s);
    assert j + (r + s) == j + r + s;
  }

  /** The version a settled disk keeps whatever backs it. */
  function Kept(c: Disk): set<Version> {
    match c.ptr
    case None => {}
    case Some(p) => {p.version}
  }

  lemma SettledMid(c: Disk)
    requires Settled(c)
    ensures Mid(c, c, "", "") && Prunable(c, Kept(c))
  {}

  /** Pruning a settled disk takes away the directories without a reason to stay, and nothing else. */
  lemma PruneSettled(c: Disk, listing: seq<Version>, w: World)
    requires Settled(c) && forall x :: x in listing <==> x in c.dirs
    ensures var e := Run(c, Prune(c, listing, Kept(c), w));
      && SameButDirs(c, e) && e.dirs == c.dirs - Doomed(c, listing, Kept(c), w) && Settled(e)
      && (e == c <==> Tidy(c, Kept(c), w))
  {
    SettledMid(c);
    PruneAlong(c, listing, Kept(c), w, c, "", "");
    var e := Run(c, Prune(c, listing, Kept(c), w));
    var gone := Doomed(c, listing, Kept(c), w);
    assert Journaled(e) <= Journaled(c);
    if Tidy(c, Kept(c), w) {
      assert gone == {};
      assert c.dirs - {} == c.dirs;
    } else {
      var x :| x in c.dirs && !Spares(c, Kept(c), w, x);
      assert x in gone && x !in e.dirs;
    }
  }

  lemma RepairSettled(c: Disk, listing: seq<Version>, w: World)
    requires Settled(c) && (c.ptr.Some? ==> c.ptr.value.version !in c.records)
    ensures Run(c, Repair(c, listing, w)) == Run(c, Prune(c, listing, Kept(c), w))
  {
    match c.ptr
    case None =>
    case Some(p) =>
      assert c.(records := c.records - {p.version}) == c by { assert c.records - {p.version} == c.records; }
      var es := Prune(c, listing, {p.version}, w);
      assert Repair(c, listing, w) == [RmRecord(p.version)] + es;
      RunAppend(c, [RmRecord(p.version)], es);
      assert Run(c, [RmRecord(p.version)]) == Apply(c, RmRecord(p.version));
  }

  lemma ReconcileSettled(c: Disk, listing: seq<Version>, w: World)
    requires Settled(c)
    ensures Run(c, Reconcile(c, false, listing, w)) == if c.ptr.Some? then Run(c, Prune(c, listing, Kept(c), w)) else c
  {
    if c.ptr.Some? {
      var e, es := WriteShare(Some(c.ptr.value.ih)), Prune(c, listing, Kept(c), w);
      assert Reconcile(c, false, listing, w) == [e] + es;
      RunAppend(c, [e], es);
      assert Run(c, [e]) == Apply(c, e) == c;
    }
  }

  /** Recovering a settled disk only prunes it, twice when it has a pointer. */
  lemma RecoverSettled(c: Disk, l: Listings, w: World, w2: World)
    requires Settled(c) && (c.ptr.Some? ==> c.ptr.value.version !in c.records) && Listed(c, l, w)
    ensures var e := Run(c, Prune(c, l.prune, Kept(c), w));
      && (forall x :: x in l.prune <==> x in c.dirs)
      && Settled(e) && Kept(e) == Kept(c) && (forall x :: x in l.again <==> x in e.dirs)
      && Run(c, Recover(c, l, w, w2)) == if c.ptr.Some? then Run(e, Prune(e, l.again, Kept(c), w2)) else e
  {
    assert forall x :: x in l.journal <==> x in c.dirs.Keys;
    JournalNothing(c, l.journal);
    assert Resolved(c, l) == c && !AnyDrop(c, l.journal);
    assert forall x :: x in l.prune <==> x in c.dirs.Keys;
    PruneSettled(c, l.prune, w);
    RepairSettled(c, l.prune, w);
    var e := Repaired(c, l, w);
    assert forall x :: x in l.again <==> x in e.dirs.Keys;
    RecoverParts(c, l, w, w2);
    ReconcileSettled(e, l.again, w2);
    assert !Dropped(c, l);
  }

  /**
   When a second recovery changes nothing: exactly when every directory it finds is the pointed-to one, is journaled
   or being staged, or backs a torrent that is still live at each of its prunings.
   */
  lemma SecondRecoveryExact(d: Disk, l: Listings, w: World, w2: World, was: Disk, v: Version, ih: Ih,
                            l': Listings, w': World, w2': World)
    requires Mid(d, was, v, ih) && Listed(d, l, w) && Listed(Run(d, Recover(d, l, w, w2)), l', w')
    ensures var c := Run(d, Recover(d, l, w, w2));
      Run(c, Recover(c, l', w', w2')) == c <==> Tidy(c, Kept(c), w') && (c.ptr.Some? ==> Tidy(c, Kept(c), w2'))
  {
    var c := Run(d, Recover(d, l, w, w2));
    RecoverAlong(d, l, w, w2, was, v, ih);
    RecoverTidies(d, l, w, w2, was, v, ih);
    hide Along, Mid, Recover, Listed;
    RecoverSettled(c, l', w', w2');
    var e := Run(c, Prune(c, l'.prune, Kept(c), w'));
    PruneSettled(c, l'.prune, w');
    PruneSettled(e, l'.again, w2');
    hide Settled, Prune, Tidy;
    assert e.dirs.Keys <= c.dirs.Keys;
  }

  /** So a second recovery changes nothing as long as no directory lost the torrent that kept it. */
  lemma SecondRecovery(d: Disk, l: Listings, w: World, w2: World, was: Disk, v: Version, ih: Ih,
                       l': Listings, w': World, w2': World)
    requires Mid(d, was, v, ih) && Listed(d, l, w) && Listed(Run(d, Recover(d, l, w, w2)), l', w')
    requires w.live + w2.live <= w'.live && w2.live <= w2'.live
    ensures var c := Run(d, Recover(d, l, w, w2)); Run(c, Recover(c, l', w', w2')) == c
  {
    var c := Run(d, Recover(d, l, w, w2));
    RecoverTidies(d, l, w, w2, was, v, ih);
    SecondRecoveryExact(d, l, w, w2, was, v, ih, l', w', w2');
    hide Mid, Recover, Listed;
    assert Tidy(c, Kept(c), w');
  }

  // ---- the import ----------------------------------------------------------------------------------------

  lemma StageAlong(d: Disk, v: Version, ih: Ih, partial: Ih)
    requires Settled(d) && (d.ptr.Some? ==> d.ptr.value.version != v)
    ensures Along(d, Stage(v, ih, partial), d, v, ih)
    ensures var c := Run(d, Stage(v, ih, partial));
      Settled(c) && c == AfterStage(d, v, ih)
  {
    var d1 := Apply(d, Content(v, partial));
    var d2 := Apply(d1, RmPending(v));
    var d3 := Apply(d2, WriteRecord(v));
    var d4 := Apply(d3, Content(v, ih));
    assert Journaled(d1) <= {v};
    assert Journaled(d2) == {} && Journaled(d3) == {} && Journaled(d4) == {};
    AlongOne(d3, Content(v, ih), d, v, ih);
    AlongCons(d2, WriteRecord(v), [Content(v, ih)], d, v, ih);
    AlongCons(d1, RmPending(v), [WriteRecord(v)] + [Content(v, ih)], d, v, ih);
    AlongCons(d, Content(v, partial), [RmPending(v)] + ([WriteRecord(v)] + [Content(v, ih)]), d, v, ih);
    assert Stage(v, ih, partial) == [Content(v, partial)] + ([RmPending(v)] + ([WriteRecord(v)] + [Content(v, ih)]));
    assert d4.dirs == d.dirs[v := ih];
  }

  /** Where promotion starts: settled, with the whole content staged. */
  ghost predicate Staged(d: Disk, v: Version, ih: Ih) {
    Settled(d) && v in d.dirs && d.dirs[v] == ih && v !in d.pending && (d.ptr.Some? ==> d.ptr.value.version != v)
  }

  /** A short sequence of effects, checked one by one. */
  lemma AlongTwo(d: Disk, a: Effect, b: Effect, was: Disk, v: Version, ih: Ih)
    requires Mid(d, was, v, ih) && Mid(Apply(d, a), was, v, ih) && Mid(Apply(Apply(d, a), b), was, v, ih)
    ensures Along(d, [a, b], was, v, ih) && Run(d, [a, b]) == Apply(Apply(d, a), b)
  {
    AlongOne(Apply(d, a), b, was, v, ih);
    AlongCons(d, a, [b], was, v, ih);
    assert [a] + [b] == [a, b];
  }

  lemma AlongJoin(d: Disk, es: seq<Effect>, fs: seq<Effect>, was: Disk, v: Version, ih: Ih)
    requires Along(d, es, was, v, ih) && Along(Run(d, es), fs, was, v, ih)
    ensures Along(d, es + fs, was, v, ih) && Run(d, es + fs) == Run(Run(d, es), fs)
  {
    AlongAppend(d, es, fs, was, v, ih);
    RunAppend(d, es, fs);
  }

  /** The share record goes back, then the directory is removed. */
  lemma RefusedTail(d: Disk, c: Disk, v: Version, ih: Ih, w: World)
    requires Staged(d, v, ih)
    requires c == Apply(d, WritePending(v)) || c == Apply(Apply(d, WritePending(v)), WriteShare(Some(ih)))
    ensures var es := [WriteShare(d.share), Content(v, w.junk), RmDir(v), RmRecord(v)];
      && Along(c, es, d, v, ih)
      && Run(c, es) == d.(dirs := d.dirs - {v}, records := d.records - {v}, pending := d.pending + {v})
  {
    var d4 := Apply(c, WriteShare(d.share));
    var d5 := Apply(d4, Content(v, w.junk));
    var d6 := Apply(d5, RmDir(v));
    var d7 := Apply(d6, RmRecord(v));
    assert Journaled(d4) == {v} && Journaled(d5) == {v};
    assert Journaled(d6) == {} && Journaled(d7) == {};
    AlongTwo(c, WriteShare(d.share), Content(v, w.junk), d, v, ih);
    AlongTwo(d5, RmDir(v), RmRecord(v), d, v, ih);
    var head, tail := [WriteShare(d.share), Content(v, w.junk)], [RmDir(v), RmRecord(v)];
    AlongJoin(c, head, tail, d, v, ih);
    assert head + tail == [WriteShare(d.share), Content(v, w.junk), RmDir(v), RmRecord(v)];
    assert d7.dirs == d.dirs - {v};
  }

  lemma RefusedAlong(d: Disk, v: Version, ih: Ih, recorded: bool, w: World)
    requires Staged(d, v, ih)
    ensures var es := [WritePending(v)] + ((if recorded then [WriteShare(Some(ih))] else [])
      + [WriteShare(d.share), Content(v, w.junk), RmDir(v), RmRecord(v)]);
      Along(d, es, d, v, ih) && Settled(Run(d, es))
        && Run(d, es) == d.(dirs := d.dirs - {v}, records := d.records - {v}, pending := d.pending + {v})
  {
    var d1 := Apply(d, WritePending(v));
    assert Journaled(d1) == {v};
    AlongOne(d, WritePending(v), d, v, ih);
    var d2 := Apply(d1, WriteShare(Some(ih)));
    assert Journaled(d2) == {v};
    AlongOne(d1, WriteShare(Some(ih)), d, v, ih);
    var head := if recorded then [WriteShare(Some(ih))] else [];
    var d3 := Run(d1, head);
    assert Along(d1, head, d, v, ih) && d3 == if recorded then d2 else d1;
    RefusedTail(d, d3, v, ih, w);
    var tail := [WriteShare(d.share), Content(v, w.junk), RmDir(v), RmRecord(v)];
    hide Along, Apply;
    AlongJoin(d1, head, tail, d, v, ih);
    AlongJoin(d, [WritePending(v)], head + tail, d, v, ih);
    assert Run(d, [WritePending(v)]) == d1 by { RunOne(d, WritePending(v)); }
  }

  /** Published or about to be: the journal entry and the new share record. */
  lemma RecordedAlong(d: Disk, v: Version, ih: Ih)
    requires Staged(d, v, ih)
    ensures var es := [WritePending(v), WriteShare(Some(ih))];
      Along(d, es, d, v, ih) && Run(d, es) == d.(pending := d.pending + {v}, share := Some(ih))
        && Journaled(Run(d, es)) == {v}
  {
    var d1 := Apply(d, WritePending(v));
    var d2 := Apply(d1, WriteShare(Some(ih)));
    assert Journaled(d1) == {v} && Journaled(d2) == {v};
    AlongTwo(d, WritePending(v), WriteShare(Some(ih)), d, v, ih);
  }

  lemma CancelledAlong(d: Disk, v: Version, ih: Ih)
    requires Staged(d, v, ih)
    ensures var es := [WritePending(v), WriteShare(Some(ih))] + [WriteShare(d.share), RmPending(v)];
      Along(d, es, d, v, ih) && Settled(Run(d, es)) && Run(d, es) == d
  {
    RecordedAlong(d, v, ih);
    var d2 := Run(d, [WritePending(v), WriteShare(Some(ih))]);
    var d3 := Apply(d2, WriteShare(d.share));
    var d4 := Apply(d3, RmPending(v));
    assert Journaled(d3) == {v} && Journaled(d4) == {};
    AlongTwo(d2, WriteShare(d.share), RmPending(v), d, v, ih);
    AlongJoin(d, [WritePending(v), WriteShare(Some(ih))], [WriteShare(d.share), RmPending(v)], d, v, ih);
    assert d.pending + {v} - {v} == d.pending;
  }

  /** The same content as the current version: the duplicate goes. */
  lemma DuplicateAlong(d: Disk, v: Version, ih: Ih, w: World)
    requires Staged(d, v, ih) && d.ptr.Some? && d.ptr.value.ih == ih
    ensures var es := [WritePending(v), WriteShare(Some(ih))] +
        ([RmPending(v), RmRecord(v)]
         + ((if v in w.live then [] else [Content(v, w.junk), RmDir(v)]) + [WriteShare(Some(ih))]));
      Along(d, es, d, v, ih) && Settled(Run(d, es))
        && Run(d, es) == d.(records := d.records - {v}, dirs := if v in w.live then d.dirs else d.dirs - {v})
  {
    RecordedAlong(d, v, ih);
    var d2 := Run(d, [WritePending(v), WriteShare(Some(ih))]);
    var d3 := Apply(d2, RmPending(v));
    var d4 := Apply(d3, RmRecord(v));
    assert Journaled(d3) == {} && Journaled(d4) == {};
    AlongTwo(d2, RmPending(v), RmRecord(v), d, v, ih);
    var d5 := Apply(d4, Content(v, w.junk));
    var d6 := Apply(d5, RmDir(v));
    assert Journaled(d5) == {} && Journaled(d6) == {};
    AlongTwo(d4, Content(v, w.junk), RmDir(v), d, v, ih);
    var rm := if v in w.live then [] else [Content(v, w.junk), RmDir(v)];
    var d7 := Run(d4, rm);
    assert Along(d4, rm, d, v, ih) && d7 == if v in w.live then d4 else d6;
    var d8 := Apply(d7, WriteShare(Some(ih)));
    assert Journaled(d8) == {};
    AlongOne(d7, WriteShare(Some(ih)), d, v, ih);
    AlongJoin(d4, rm, [WriteShare(Some(ih))], d, v, ih);
    AlongJoin(d2, [RmPending(v), RmRecord(v)], rm + [WriteShare(Some(ih))], d, v, ih);
    AlongJoin(d, [WritePending(v), WriteShare(Some(ih))], [RmPending(v), RmRecord(v)] + (rm + [WriteShare(Some(ih))]),
      d, v, ih);
    assert d.pending + {v} - {v} == d.pending;
    assert d6.dirs == d.dirs - {v};
  }

  /** The pointer is the commit point; link, journal, record and old versions follow. */
  lemma CommittedAlong(d: Disk, v: Version, ih: Ih, listing: seq<Version>, w: World)
    requires Staged(d, v, ih)
    ensures var es := [WritePending(v), WriteShare(Some(ih))] +
        ([WritePointer(Pointer(v, ih)), SetLink(v)] + ([RmPending(v), RmRecord(v)]
        + Prune(d.(records := d.records - {v}, pending := d.pending - {v}), listing, {v}, w)));
      Along(d, es, d, v, ih) && Settled(Run(d, es)) && Committed(d, Run(d, es), v, ih, listing, w)
  {
    RecordedAlong(d, v, ih);
    var d2 := Run(d, [WritePending(v), WriteShare(Some(ih))]);
    var d3 := Apply(d2, WritePointer(Pointer(v, ih)));
    var d4 := Apply(d3, SetLink(v));
    assert Journaled(d3) == {v} && Journaled(d4) == {v};
    AlongTwo(d2, WritePointer(Pointer(v, ih)), SetLink(v), d, v, ih);
    var d5 := Apply(d4, RmPending(v));
    var d6 := Apply(d5, RmRecord(v));
    assert Journaled(d5) == {} && Journaled(d6) == {};
    AlongTwo(d4, RmPending(v), RmRecord(v), d, v, ih);
    var prune := Prune(d.(records := d.records - {v}, pending := d.pending - {v}), listing, {v}, w);
    PruneFields(d.(records := d.records - {v}, pending := d.pending - {v}), d6, listing, {v}, w);
    PruneAlong(d6, listing, {v}, w, d, v, ih);
    AlongJoin(d4, [RmPending(v), RmRecord(v)], prune, d, v, ih);
    AlongJoin(d2, [WritePointer(Pointer(v, ih)), SetLink(v)], [RmPending(v), RmRecord(v)] + prune, d, v, ih);
    AlongJoin(d, [WritePending(v), WriteShare(Some(ih))],
      [WritePointer(Pointer(v, ih)), SetLink(v)] + ([RmPending(v), RmRecord(v)] + prune), d, v, ih);
    var end := Run(d6, prune);
    assert Journaled(end) == {};
    assert d.pending + {v} - {v} == d.pending;
    var e := d.(records := d.records - {v});
    assert Doomed(d6, listing, {v}, w) == Doomed(e, listing, {v}, w);
  }

  /** The new version is pointed to, linked and shared, and what has no reason to stay is pruned. */
  ghost predicate Committed(d: Disk, c: Disk, v: Version, ih: Ih, listing: seq<Version>, w: World) {
    && c.ptr == Some(Pointer(v, ih)) && c.link == Some(v) && c.share == Some(ih)
    && c.pending == d.pending && c.records == d.records - {v}
    && c.dirs == d.dirs - Doomed(d.(records := d.records - {v}), listing, {v}, w)
  }

  /** The content is that of the current version. */
  predicate Duplicate(d: Disk, ih: Ih) { d.ptr.Some? && d.ptr.value.ih == ih }

  /**
   What a promotion that ran to its end has done: published, the new version is the current one, or was dropped as a
   duplicate; cancelled, nothing has changed; refused, only the staged version is gone, and its journal entry remains.
   */
  ghost predicate Promoted(d: Disk, c: Disk, v: Version, ih: Ih, how: Publish, listing: seq<Version>, w: World) {
    match how
    case Refused(_) => c == d.(dirs := d.dirs - {v}, records := d.records - {v}, pending := d.pending + {v})
    case Cancelled => c == d
    case Published =>
      if Duplicate(d, ih) then
        c == d.(records := d.records - {v}, dirs := if v in w.live then d.dirs else d.dirs - {v})
      else Committed(d, c, v, ih, listing, w)
  }

  lemma {:induction false} PruneFields(d: Disk, c: Disk, listing: seq<Version>, keep: set<Version>, w: World)
    requires c.records == d.records && c.pending == d.pending
    ensures Prune(d, listing, keep, w) == Prune(c, listing, keep, w)
    decreases listing
  {
    if listing == [] {
    } else {
      PruneFields(d, c, listing[1..], keep, w);
    }
  }

  /** An import may be stopped anywhere; left alone, it ends settled, on the version it says. */
  lemma PromoteAlong(d: Disk, v: Version, ih: Ih, how: Publish, listing: seq<Version>, w: World)
    requires Staged(d, v, ih)
    ensures Along(d, Promote(d, v, ih, how, listing, w), d, v, ih)
    ensures var c := Run(d, Promote(d, v, ih, how, listing, w));
      Settled(c) && Promoted(d, c, v, ih, how, listing, w)
  {
    hide Along, Settled, Staged, Prune, Run, Committed;
    var es := Promote(d, v, ih, how, listing, w);
    match how
    case Refused(recorded) =>
      RefusedAlong(d, v, ih, recorded, w);
    case Cancelled =>
      CancelledAlong(d, v, ih);
      assert es == [WritePending(v), WriteShare(Some(ih))] + [WriteShare(d.share), RmPending(v)];
    case Published =>
      if d.ptr.Some? && d.ptr.value.ih == ih {
        DuplicateAlong(d, v, ih, w);
        var rm := if v in w.live then [] else [Content(v, w.junk), RmDir(v)];
        assert es == [WritePending(v), WriteShare(Some(ih))]
          + ([RmPending(v), RmRecord(v)] + (rm + [WriteShare(Some(ih))]));
      } else {
        CommittedAlong(d, v, ih, listing, w);
        var prune := Prune(d.(records := d.records - {v}, pending := d.pending - {v}), listing, {v}, w);
        assert es == [WritePending(v), WriteShare(Some(ih))]
          + ([WritePointer(Pointer(v, ih)), SetLink(v)] + ([RmPending(v), RmRecord(v)] + prune));
      }
  }

  lemma {:induction false} AlongWas(d: Disk, es: seq<Effect>, was: Disk, other: Disk, v: Version, ih: Ih)
    requires Along(d, es, was, v, ih) && other.ptr == was.ptr && other.link == was.link
    ensures Along(d, es, other, v, ih)
    decreases es
  {
    if es == [] {
    } else {
      AlongWas(Apply(d, es[0]), es[1..], was, other, v, ih);
    }
  }

  /** The version is already the promoted one. */
  predicate Repeated(d: Disk, v: Version) { d.ptr.Some? && d.ptr.value.version == v }

  /** The disk with the new version's whole content staged. */
  function AfterStage(d: Disk, v: Version, ih: Ih): Disk {
    d.(dirs := d.dirs[v := ih], records := d.records + {v}, pending := d.pending - {v})
  }

  /** The pointer an import that runs to its end leaves: the new version's when published and not there already. */
  function Lands(d: Disk, v: Version, ih: Ih, how: Publish): Option<Pointer> {
    if how.Published? && !Repeated(d, v) && !Duplicate(d, ih) then Some(Pointer(v, ih)) else d.ptr
  }

  /** The whole of importLocked, from staging on. */
  lemma ImportAlong(d: Disk, v: Version, ih: Ih, partial: Ih, how: Publish, listing: seq<Version>, w: World)
    requires Settled(d)
    ensures Along(d, Import(d, v, ih, partial, how, listing, w), d, v, ih)
    ensures var c := Run(d, Import(d, v, ih, partial, how, listing, w));
      && Settled(c) && c.ptr == Lands(d, v, ih, how)
      && (Repeated(d, v) ==> c == d)
      && (!Repeated(d, v) ==> Promoted(AfterStage(d, v, ih), c, v, ih, how, listing, w))
  {
    if Repeated(d, v) {
      assert Journaled(Apply(d, WriteShare(Some(d.dirs[v])))) == Journaled(d);
      AlongOne(d, WriteShare(Some(d.dirs[v])), d, v, ih);
    } else {
      var s := Stage(v, ih, partial);
      StageAlong(d, v, ih, partial);
      var c := Run(d, s);
      assert c == AfterStage(d, v, ih);
      var p := Promote(c, v, ih, how, listing, w);
      assert Staged(c, v, ih);
      hide Along, Settled, Staged, Promote, Stage;
      PromoteAlong(c, v, ih, how, listing, w);
      AlongWas(c, p, c, d, v, ih);
      AlongJoin(d, s, p, d, v, ih);
    }
  }

  // ---- histories --------------------------------------------------------------------------------------------

  /** A recovery that is stopped after `stop` effects. */
  datatype Try = Try(l: Listings, w: World, w2: World, stop: nat)

  function Cut(es: seq<Effect>, n: nat): seq<Effect> { if n < |es| then es[..n] else es }

  function Tried(d: Disk, tries: seq<Try>): Disk
    decreases tries
  {
    if tries == [] then d
    else Tried(Run(d, Cut(Recover(d, tries[0].l, tries[0].w, tries[0].w2), tries[0].stop)), tries[1..])
  }

  predicate TriesListed(d: Disk, tries: seq<Try>)
    decreases tries
  {
    tries != [] ==>
      && Listed(d, tries[0].l, tries[0].w)
      && TriesListed(Run(d, Cut(Recover(d, tries[0].l, tries[0].w, tries[0].w2), tries[0].stop)), tries[1..])
  }

  lemma CutAlong(d: Disk, es: seq<Effect>, n: nat, was: Disk, v: Version, ih: Ih)
    requires Along(d, es, was, v, ih)
    ensures Mid(Run(d, Cut(es, n)), was, v, ih)
  {
    if n < |es| { AlongPrefix(d, es, n, was, v, ih); } else { AlongEnd(d, es, was, v, ih); }
  }

  lemma {:induction false} TriesKeep(d: Disk, tries: seq<Try>, was: Disk, v: Version, ih: Ih)
    requires Mid(d, was, v, ih) && TriesListed(d, tries)
    ensures Mid(Tried(d, tries), was, v, ih)
    decreases tries
  {
    hide Mid, Recover, Listed;
    if tries == [] {
    } else {
      var t := tries[0];
      var es := Recover(d, t.l, t.w, t.w2);
      RecoverAlong(d, t.l, t.w, t.w2, was, v, ih);
      CutAlong(d, es, t.stop, was, v, ih);
      TriesKeep(Run(d, Cut(es, t.stop)), tries[1..], was, v, ih);
    }
  }

  // ---- what recovery decides ------------------------------------------------------------------------------------

  /**
   The pointer a recovery of this disk ends with: the one on disk; without one, the new version when its share has been
   recorded, and otherwise none.
   */
  function Verdict(d: Disk, v: Version, ih: Ih): Option<Pointer> {
    if d.ptr.Some? then d.ptr else if d.share.Some? then Some(Pointer(v, ih)) else None
  }

  lemma VerdictStays(d: Disk, e: Disk, was: Disk, v: Version, ih: Ih)
    requires d.ptr.Some? || d.share.None?
    requires was.ptr == d.ptr && Mid(e, was, v, "a") && Mid(e, was, v, "b")
    ensures e.ptr == d.ptr && Verdict(e, v, ih) == Verdict(d, v, ih)
  {
    assert "a" != "b";
  }

  /** A disk with a pointer, or with nothing recorded, may be read as the middle of an import of any content. */
  lemma MidOfAny(d: Disk, was: Disk, v: Version, ih: Ih, any: Ih)
    requires Mid(d, was, v, ih) && (d.ptr.Some? || d.share.None?)
    ensures Mid(d, d, v, any)
  {}

  lemma PrefixMid(d: Disk, l: Listings, w: World, w2: World, n: nat, was: Disk, v: Version, ih: Ih)
    requires Mid(d, was, v, ih) && Listed(d, l, w)
    ensures Mid(Run(d, Cut(Recover(d, l, w, w2), n)), was, v, ih)
  {
    hide Mid, Listed, Recover, Along, Run, Cut;
    RecoverAlong(d, l, w, w2, was, v, ih);
    CutAlong(d, Recover(d, l, w, w2), n, was, v, ih);
  }

  lemma KeepsVerdict(d: Disk, l: Listings, w: World, w2: World, n: nat, was: Disk, v: Version, ih: Ih)
    requires Mid(d, was, v, ih) && Listed(d, l, w) && (d.ptr.Some? || d.share.None?)
    ensures Verdict(Run(d, Cut(Recover(d, l, w, w2), n)), v, ih) == Verdict(d, v, ih)
  {
    MidOfAny(d, was, v, ih, "a");
    MidOfAny(d, was, v, ih, "b");
    hide Mid, Listed, Recover, Run, Cut;
    PrefixMid(d, l, w, w2, n, d, v, "a");
    PrefixMid(d, l, w, w2, n, d, v, "b");
    VerdictStays(d, Run(d, Cut(Recover(d, l, w, w2), n)), d, v, ih);
  }

  /** With the share recorded and no pointer, reading the journal writes the pointer and clears the entry. */
  lemma {:induction false} JournalCompletes(d: Disk, listing: seq<Version>, v: Version, ih: Ih)
    requires d.ptr.None? && d.share == Some(ih) && Journaled(d) == {v}
    requires v in listing && forall x :: x in listing ==> x in d.dirs
    ensures Journal(d, listing) == [WritePointer(Pointer(v, ih)), RmPending(v)]
    decreases listing
  {
    var x, rest := listing[0], listing[1..];
    assert v in Journaled(d);
    if x == v {
      var step := [WritePointer(Pointer(v, ih)), RmPending(v)];
      assert JournalStep(d, v) == step;
      var c := Apply(Apply(d, step[0]), step[1]);
      RunTwo(d, step[0], step[1]);
      assert Journaled(c) == {};
      JournalNothing(c, rest);
      assert step + [] == step;
    } else {
      assert x !in Journaled(d);
      assert x !in d.pending;
      assert v in rest;
      JournalCompletes(d, rest, v, ih);
      assert [] + Journal(d, rest) == Journal(d, rest);
    }
  }

  /** What recovery does after the journal, along any import this may be the middle of. */
  lemma RestAlong(d: Disk, l: Listings, w: World, w2: World, was: Disk, v: Version, ih: Ih)
    requires var d1 := Resolved(d, l); Mid(d1, was, v, ih) && Journaled(d1) == {} && (d1.ptr.None? ==> d1.share == None)
    ensures Along(Resolved(d, l), Repair(Resolved(d, l), l.prune, w)
      + Reconcile(Repaired(d, l, w), Dropped(d, l), l.again, w2), was, v, ih)
  {
    var d1, d2 := Resolved(d, l), Repaired(d, l, w);
    var r := Repair(d1, l.prune, w);
    RepairAlong(d1, l.prune, w, was, v, ih);
    ReconcileAlong(d2, Dropped(d, l), l.again, w2, was, v, ih);
    hide Mid, Along, Repair, Reconcile, Journaled;
    AlongAppend(d1, r, Reconcile(d2, Dropped(d, l), l.again, w2), was, v, ih);
  }

  /** A recovery that completes the promotion: two effects of the journal, and a rest that starts from a pointer. */
  lemma CompletesShape(d: Disk, l: Listings, w: World, w2: World, was: Disk, v: Version, ih: Ih)
    returns (d1: Disk, rest: seq<Effect>)
    requires Mid(d, was, v, ih) && Listed(d, l, w) && d.ptr.None? && d.share.Some?
    ensures d1 == Apply(Apply(d, WritePointer(Pointer(v, ih))), RmPending(v)) && d1.ptr == Some(Pointer(v, ih))
    ensures Recover(d, l, w, w2) == [WritePointer(Pointer(v, ih)), RmPending(v)] + rest
    ensures Along(d1, rest, d1, v, "a") && Along(d1, rest, d1, v, "b")
  {
    assert forall x :: x in l.journal <==> x in d.dirs.Keys;
    assert v in Journaled(d);
    JournalCompletes(d, l.journal, v, ih);
    var j := [WritePointer(Pointer(v, ih)), RmPending(v)];
    d1 := Apply(Apply(d, j[0]), j[1]);
    RunTwo(d, j[0], j[1]);
    assert Resolved(d, l) == d1 && Journaled(d1) == {};
    assert Mid(d1, d1, v, "a") && Mid(d1, d1, v, "b");
    rest := Repair(d1, l.prune, w) + Reconcile(Repaired(d, l, w), Dropped(d, l), l.again, w2);
    assert Recover(d, l, w, w2) == j + rest;
    RestAlong(d, l, w, w2, d1, v, "a");
    RestAlong(d, l, w, w2, d1, v, "b");
  }

  /** The same when the journal completes the promotion. */
  lemma CompletesVerdict(d: Disk, l: Listings, w: World, w2: World, n: nat, was: Disk, v: Version, ih: Ih)
    requires Mid(d, was, v, ih) && Listed(d, l, w) && d.ptr.None? && d.share.Some?
    ensures Verdict(Run(d, Cut(Recover(d, l, w, w2), n)), v, ih) == Some(Pointer(v, ih))
  {
    var es := Recover(d, l, w, w2);
    var d1, rest := CompletesShape(d, l, w, w2, was, v, ih);
    hide Mid, Listed, Recover, Along;
    var j := [WritePointer(Pointer(v, ih)), RmPending(v)];
    RunTwo(d, j[0], j[1]);
    if n == 0 {
      assert Cut(es, 0) == [];
    } else if n == 1 {
      assert Cut(es, 1) == [j[0]];
      assert Run(d, [j[0]]) == Apply(d, j[0]);
    } else {
      hide Apply;
      assert Cut(es, n) == j + Cut(rest, n - 2);
      RunAppend(d, j, Cut(rest, n - 2));
      VerdictAlong(d1, rest, n - 2, v, ih);
    }
  }

  lemma VerdictAlong(d1: Disk, rest: seq<Effect>, n: nat, v: Version, ih: Ih)
    requires d1.ptr.Some? && Along(d1, rest, d1, v, "a") && Along(d1, rest, d1, v, "b")
    ensures Verdict(Run(d1, Cut(rest, n)), v, ih) == d1.ptr
  {
    hide Mid, Run, Cut;
    CutAlong(d1, rest, n, d1, v, "a");
    CutAlong(d1, rest, n, d1, v, "b");
    VerdictStays(d1, Run(d1, Cut(rest, n)), d1, v, ih);
  }

  /** Stopped anywhere or not at all, recovery changes nothing about the outcome, and complete it has carried it out. */
  lemma RecoverDecides(d: Disk, l: Listings, w: World, w2: World, n: nat, was: Disk, v: Version, ih: Ih)
    requires Mid(d, was, v, ih) && Listed(d, l, w)
    ensures Verdict(Run(d, Cut(Recover(d, l, w, w2), n)), v, ih) == Verdict(d, v, ih)
    ensures Run(d, Recover(d, l, w, w2)).ptr == Verdict(d, v, ih)
  {
    var es := Recover(d, l, w, w2);
    VerdictKept(d, l, w, w2, n, was, v, ih);
    VerdictKept(d, l, w, w2, |es|, was, v, ih);
    RecoverAlong(d, l, w, w2, was, v, ih);
    assert Cut(es, |es|) == es;
    SettledVerdict(Run(d, es), v, ih);
  }

  lemma VerdictKept(d: Disk, l: Listings, w: World, w2: World, n: nat, was: Disk, v: Version, ih: Ih)
    requires Mid(d, was, v, ih) && Listed(d, l, w)
    ensures Verdict(Run(d, Cut(Recover(d, l, w, w2), n)), v, ih) == Verdict(d, v, ih)
  {
    hide Mid, Listed, Recover, Run, Cut;
    if d.ptr.None? && d.share.Some? {
      CompletesVerdict(d, l, w, w2, n, was, v, ih);
    } else {
      KeepsVerdict(d, l, w, w2, n, was, v, ih);
    }
  }

  lemma SettledVerdict(d: Disk, v: Version, ih: Ih)
    requires Settled(d)
    ensures Verdict(d, v, ih) == d.ptr
  {}

  lemma {:induction false} TriesDecide(d: Disk, tries: seq<Try>, was: Disk, v: Version, ih: Ih)
    requires Mid(d, was, v, ih) && TriesListed(d, tries)
    ensures Verdict(Tried(d, tries), v, ih) == Verdict(d, v, ih)
    decreases tries
  {
    hide Mid, Recover, Listed, Cut, Verdict;
    if tries == [] {
      assert Tried(d, tries) == d;
    } else {
      var t := tries[0];
      VerdictKept(d, t.l, t.w, t.w2, t.stop, was, v, ih);
      PrefixMid(d, t.l, t.w, t.w2, t.stop, was, v, ih);
      TriesDecide(Run(d, Cut(Recover(d, t.l, t.w, t.w2), t.stop)), tries[1..], was, v, ih);
    }
  }

  /**
   Stop an import after any number of effects and any number of recoveries after any number of theirs: the
   pointed-to directory always holds the pointer's content, and the recovery that completes leaves pointer, link
   and share all on the old version (or on none) or all on the new one: the new one exactly when the stopped import
   had written its pointer, or had recorded its share with no pointer before.
   */
  lemma CrashConsistent(d: Disk, v: Version, ih: Ih, partial: Ih, how: Publish, listing: seq<Version>, w: World, n: nat,
                        tries: seq<Try>, l: Listings, w1: World, w2: World)
    requires Settled(d)
    requires var e := Run(d, Cut(Import(d, v, ih, partial, how, listing, w), n));
      TriesListed(e, tries) && Listed(Tried(e, tries), l, w1)
    ensures var e := Run(d, Cut(Import(d, v, ih, partial, how, listing, w), n));
      && (e.ptr.Some? ==> Holds(e, e.ptr.value))
      && (Tried(e, tries).ptr.Some? ==> Holds(Tried(e, tries), Tried(e, tries).ptr.value))
      && var f := Run(Tried(e, tries), Recover(Tried(e, tries), l, w1, w2));
         Settled(f) && (f.ptr == d.ptr || f.ptr == Some(Pointer(v, ih))) && f.ptr == Verdict(e, v, ih)
  {
    var es := Import(d, v, ih, partial, how, listing, w);
    var e := Run(d, Cut(es, n));
    hide Import, Listed, Recover, TriesListed, Tried, Settled, Cut, Along, Lands, Promoted, Verdict, Run;
    ImportAlong(d, v, ih, partial, how, listing, w);
    CutAlong(d, es, n, d, v, ih);
    TriesKeep(e, tries, d, v, ih);
    TriesDecide(e, tries, d, v, ih);
    RecoverDecides(Tried(e, tries), l, w1, w2, 0, d, v, ih);
    RecoverAlong(Tried(e, tries), l, w1, w2, d, v, ih);
    AlongEnd(Tried(e, tries), Recover(Tried(e, tries), l, w1, w2), d, v, ih);
  }

  /** Effects that leave the pointer alone, and those that leave the share alone too. */
  predicate PointerQuiet(e: Effect) { !e.WritePointer? && !e.RmPointer? }
  predicate Quiet(e: Effect) { PointerQuiet(e) && !e.WriteShare? }

  lemma {:induction false} QuietRun(d: Disk, es: seq<Effect>)
    ensures (forall e :: e in es ==> PointerQuiet(e)) ==> Run(d, es).ptr == d.ptr
    ensures (forall e :: e in es ==> Quiet(e)) ==> Run(d, es).ptr == d.ptr && Run(d, es).share == d.share
    decreases es
  {
    if es == [] {
    } else {
      assert es[0] in es;
      QuietRun(Apply(d, es[0]), es[1..]);
    }
  }

  lemma {:induction false} PruneQuiet(d: Disk, listing: seq<Version>, keep: set<Version>, w: World)
    ensures forall e :: e in Prune(d, listing, keep, w) ==> Quiet(e)
    decreases listing
  {
    if listing == [] {
    } else {
      PruneQuiet(d, listing[1..], keep, w);
    }
  }

  /** Five effects that decide nothing, the share record, the pointer, and the rest. */
  lemma ImportShape(d: Disk, v: Version, ih: Ih, partial: Ih, listing: seq<Version>, w: World)
    returns (a: seq<Effect>, b: seq<Effect>)
    requires Settled(d) && !Repeated(d, v) && !Duplicate(d, ih)
    ensures |a| == 5 && (forall e :: e in a ==> Quiet(e)) && (forall e :: e in b ==> PointerQuiet(e))
    ensures Import(d, v, ih, partial, Published, listing, w) ==
      a + ([WriteShare(Some(ih)), WritePointer(Pointer(v, ih))] + b)
  {
    StageAlong(d, v, ih, partial);
    var c := AfterStage(d, v, ih);
    var e := c.(records := c.records - {v}, pending := c.pending - {v});
    var prune := Prune(e, listing, {v}, w);
    PruneQuiet(e, listing, {v}, w);
    hide Prune, Run, AfterStage, Settled, Along;
    a := Stage(v, ih, partial) + [WritePending(v)];
    b := [SetLink(v), RmPending(v), RmRecord(v)] + prune;
  }

  lemma CutShape(a: seq<Effect>, x: Effect, y: Effect, b: seq<Effect>, n: nat)
    requires |a| == 5
    ensures n <= 5 ==> Cut(a + ([x, y] + b), n) == a[..n]
    ensures n == 6 ==> Cut(a + ([x, y] + b), n) == a + [x]
    ensures n >= 7 ==> Cut(a + ([x, y] + b), n) == a + ([x, y] + Cut(b, n - 7))
  {}

  lemma CutVerdict(d: Disk, a: seq<Effect>, b: seq<Effect>, v: Version, ih: Ih, n: nat)
    requires |a| == 5 && (forall e :: e in a ==> Quiet(e)) && (forall e :: e in b ==> PointerQuiet(e))
    requires d.ptr.None? ==> d.share.None?
    ensures Verdict(Run(d, Cut(a + ([WriteShare(Some(ih)), WritePointer(Pointer(v, ih))] + b), n)), v, ih)
      == if n < 6 || (n == 6 && d.ptr.Some?) then d.ptr else Some(Pointer(v, ih))
  {
    var share, pointer := WriteShare(Some(ih)), WritePointer(Pointer(v, ih));
    CutShape(a, share, pointer, b, n);
    if n < 6 {
      QuietRun(d, a[..n]);
    } else {
      QuietRun(d, a);
      var c := Run(d, a);
      if n == 6 {
        RunAppend(d, a, [share]);
        RunOne(c, share);
      } else {
        var cut := Cut(b, n - 7);
        RunAppend(d, a, [share, pointer] + cut);
        RunAppend(c, [share, pointer], cut);
        RunTwo(c, share, pointer);
        QuietRun(Run(c, [share, pointer]), cut);
      }
    }
  }

  /**
   The commit point: an import to be published decides for the new version with its seventh effect, the pointer, or
   with the sixth, the share record, when the repository has no pointer yet.
   */
  lemma CommitPoint(d: Disk, v: Version, ih: Ih, partial: Ih, listing: seq<Version>, w: World, n: nat)
    requires Settled(d) && !Repeated(d, v) && !Duplicate(d, ih)
    ensures Verdict(Run(d, Cut(Import(d, v, ih, partial, Published, listing, w), n)), v, ih)
      == if n < 6 || (n == 6 && d.ptr.Some?) then d.ptr else Some(Pointer(v, ih))
  {
    var a, b := ImportShape(d, v, ih, partial, listing, w);
    hide Import, Run, Cut, Verdict;
    CutVerdict(d, a, b, v, ih, n);
  }

  lemma RunOne(d: Disk, e: Effect)
    ensures Run(d, [e]) == Apply(d, e)
  {
    assert [e][1..] == [];
  }

  /** One import: left alone, or stopped and recovered before the next. */
  datatype Episode = Episode(v: Version, ih: Ih, partial: Ih, how: Publish, listing: seq<Version>, w: World,
                             stop: Option<nat>, tries: seq<Try>, l: Listings, w1: World, w2: World)

  function After(d: Disk, e: Episode): Disk {
    var es := Import(d, e.v, e.ih, e.partial, e.how, e.listing, e.w);
    match e.stop
    case None => Run(d, es)
    case Some(n) => var c := Tried(Run(d, Cut(es, n)), e.tries); Run(c, Recover(c, e.l, e.w1, e.w2))
  }

  predicate EpisodeListed(d: Disk, e: Episode) {
    match e.stop
    case None => true
    case Some(n) =>
      var c := Run(d, Cut(Import(d, e.v, e.ih, e.partial, e.how, e.listing, e.w), n));
      TriesListed(c, e.tries) && Listed(Tried(c, e.tries), e.l, e.w1)
  }

  function History(d: Disk, es: seq<Episode>): Disk
    decreases es
  {
    if es == [] then d else History(After(d, es[0]), es[1..])
  }

  predicate HistoryListed(d: Disk, es: seq<Episode>)
    decreases es
  {
    es != [] ==> EpisodeListed(d, es[0]) && HistoryListed(After(d, es[0]), es[1..])
  }

  function Fresh(): Disk { Disk(None, None, None, {}, {}, map[]) }

  /** Where one import leaves the pointer: where it lands left alone, what its disk had decided when it was stopped. */
  function Outcome(d: Disk, e: Episode): Option<Pointer> {
    match e.stop
    case None => Lands(d, e.v, e.ih, e.how)
    case Some(n) => Verdict(Run(d, Cut(Import(d, e.v, e.ih, e.partial, e.how, e.listing, e.w), n)), e.v, e.ih)
  }

  lemma EpisodeSettles(d: Disk, e: Episode)
    requires Settled(d) && EpisodeListed(d, e)
    ensures Settled(After(d, e)) && After(d, e).ptr == Outcome(d, e)
    ensures Outcome(d, e) == d.ptr || Outcome(d, e) == Some(Pointer(e.v, e.ih))
  {
    hide Settled, Import, Recover, Listed, TriesListed, Tried, Cut, Promoted, Verdict;
    match e.stop {
      case None => ImportAlong(d, e.v, e.ih, e.partial, e.how, e.listing, e.w);
      case Some(n) => CrashConsistent(d, e.v, e.ih, e.partial, e.how, e.listing, e.w, n, e.tries, e.l, e.w1, e.w2);
    }
  }

  /**
   Whatever crashes along the way, every history of imports of a repository leaves it settled on a version imported.
   */
  lemma {:induction false} HistorySettles(d: Disk, es: seq<Episode>)
    requires Settled(d) && HistoryListed(d, es)
    ensures Settled(History(d, es))
    ensures History(d, es).ptr == d.ptr || exists e :: e in es && History(d, es).ptr == Some(Pointer(e.v, e.ih))
    decreases es
  {
    hide Settled, After, EpisodeListed, Outcome;
    if es == [] {
    } else {
      EpisodeSettles(d, es[0]);
      HistorySettles(After(d, es[0]), es[1..]);
      assert es[0] in es;
    }
  }

  /** And the last import of the history leaves the pointer where it lands, or where it had got when it was stopped. */
  lemma {:induction false} HistoryLands(d: Disk, es: seq<Episode>)
    requires Settled(d) && HistoryListed(d, es) && es != []
    ensures var last, c := es[|es| - 1], History(d, es[..|es| - 1]);
      Settled(c) && EpisodeListed(c, last) && History(d, es) == After(c, last) && History(d, es).ptr == Outcome(c, last)
    decreases es
  {
    hide Settled, After, EpisodeListed, Outcome;
    EpisodeSettles(d, es[0]);
    if |es| == 1 {
      assert es[..0] == [] && es[1..] == [];
    } else {
      HistoryLands(After(d, es[0]), es[1..]);
      assert es[..|es| - 1][1..] == es[1..][..|es[1..]| - 1];
    }
  }

  /** From an empty disk, so over the whole life of a repository: settled, with no pointer or on a version imported. */
  lemma LifeSettles(es: seq<Episode>)
    requires HistoryListed(Fresh(), es)
    ensures var c := History(Fresh(), es);
      Settled(c) && (c.ptr == None || exists e :: e in es && c.ptr == Some(Pointer(e.v, e.ih)))
  {
    hide History, HistoryListed;
    HistorySettles(Fresh(), es);
  }

  // ---- an import before recovery -----------------------------------------------------------------------------

  /** A first import of the repository, stopped after its share record was written and before its pointer. */
  function Recorded(d: Disk, v: Version, ih: Ih, partial: Ih, listing: seq<Version>, w: World): Disk {
    Run(d, Cut(Import(d, v, ih, partial, Published, listing, w), 6))
  }

  lemma RecordedIs(d: Disk, v: Version, ih: Ih, partial: Ih, listing: seq<Version>, w: World)
    requires d.ptr.None? && v !in d.pending
    ensures Recorded(d, v, ih, partial, listing, w)
      == d.(share := Some(ih), pending := d.pending + {v}, records := d.records + {v}, dirs := d.dirs[v := ih])
  {
    var s, es := Stage(v, ih, partial), Import(d, v, ih, partial, Published, listing, w);
    var d1 := Apply(d, Content(v, partial));
    var d2 := Apply(d1, RmPending(v));
    var d3 := Apply(d2, WriteRecord(v));
    var d4 := Apply(d3, Content(v, ih));
    RunTwo(d, Content(v, partial), RmPending(v));
    RunTwo(d2, WriteRecord(v), Content(v, ih));
    RunAppend(d, [Content(v, partial), RmPending(v)], [WriteRecord(v), Content(v, ih)]);
    assert [Content(v, partial), RmPending(v)] + [WriteRecord(v), Content(v, ih)] == s;
    assert Run(d, s) == d4;
    RunTwo(d4, WritePending(v), WriteShare(Some(ih)));
    RunAppend(d, s, [WritePending(v), WriteShare(Some(ih))]);
    hide Run, Prune;
    assert es == s + Promote(d4, v, ih, Published, listing, w);
    assert es[..6] == s + [WritePending(v), WriteShare(Some(ih))];
    assert d2.pending + {v} == d.pending + {v};
    assert d.dirs[v := partial][v := ih] == d.dirs[v := ih];
  }

  lemma RunTwo(d: Disk, a: Effect, b: Effect)
    ensures Run(d, [a, b]) == Apply(Apply(d, a), b)
  {
    assert [a, b][1..] == [b];
    assert Run(Apply(d, a), [b]) == Run(Apply(Apply(d, a), b), []);
  }

  /** The rest of the journal only clears entries when the pointer and the share already agree. */
  lemma {:induction false} JournalClears(d: Disk, listing: seq<Version>)
    requires d.ptr.Some? && d.share == Some(d.ptr.value.ih)
    ensures Run(d, Journal(d, listing)) == d.(pending := d.pending - (set x | x in listing)) && !AnyDrop(d, listing)
    decreases listing
  {
    if listing == [] {
      assert (set x | x in listing) == {};
      assert d.pending - {} == d.pending;
    } else {
      var x, rest := listing[0], listing[1..];
      var step := JournalStep(d, x);
      var c := d.(pending := d.pending - {x});
      assert Run(d, step) == c by {
        assert Run(d, [RmPending(x)]) == Apply(d, RmPending(x));
        if x !in d.pending { assert d.pending - {x} == d.pending; }
      }
      JournalClears(c, rest);
      RunAppend(d, step, Journal(c, rest));
      assert listing == [x] + rest;
      assert c.pending - (set y | y in rest) == d.pending - (set y | y in listing);
    }
  }

  /** With no pointer, the first version listed takes the share, whichever import wrote it. */
  lemma FirstTakesShare(d: Disk, listing: seq<Version>, ih: Ih)
    requires d.ptr.None? && d.share == Some(ih) && listing != [] && listing[0] in d.pending
      && d.pending <= (set x | x in listing)
    ensures Run(d, Journal(d, listing)) == d.(ptr := Some(Pointer(listing[0], ih)), pending := {})
      && !AnyDrop(d, listing)
  {
    var x, rest := listing[0], listing[1..];
    var step := [WritePointer(Pointer(x, ih)), RmPending(x)];
    var c := d.(ptr := Some(Pointer(x, ih)), pending := d.pending - {x});
    RunTwo(d, step[0], step[1]);
    assert JournalStep(d, x) == step && Run(d, step) == c;
    JournalClears(c, rest);
    RunAppend(d, step, Journal(c, rest));
    assert listing == [x] + rest;
    assert c.pending - (set y | y in rest) == {};
  }

  /**
   Why recovery comes before the next import: the journal carries no infohash.  Two first imports of different
   content, each stopped between its share record and its pointer with no recovery between them, are recovered as the
   first version listed with the share of the second import; that settles exactly when it is the second one's version.
   */
  lemma TwoJournaledMispair(a: Version, x: Ih, b: Version, y: Ih, pa: Ih, pb: Ih, la: seq<Version>, lb: seq<Version>,
                            wa: World, wb: World, l: Listings, w: World, w2: World)
    requires a != b && x != y
    requires Listed(Recorded(Recorded(Fresh(), a, x, pa, la, wa), b, y, pb, lb, wb), l, w)
    ensures l.journal != [] && l.journal[0] in {a, b}
    ensures var d := Recorded(Recorded(Fresh(), a, x, pa, la, wa), b, y, pb, lb, wb);
      var c := Run(d, Recover(d, l, w, w2));
      c.ptr == Some(Pointer(l.journal[0], y)) && (Settled(c) <==> l.journal[0] == b)
  {
    RecordedIs(Fresh(), a, x, pa, la, wa);
    RecordedIs(Recorded(Fresh(), a, x, pa, la, wa), b, y, pb, lb, wb);
    hide Recorded;
    var d := Disk(None, None, Some(y), {a, b}, {a, b}, map[a := x, b := y]);
    assert d == Recorded(Recorded(Fresh(), a, x, pa, la, wa), b, y, pb, lb, wb);
    assert d.dirs.Keys == {a, b};
    var z := FirstOf(d, l.journal);
    FirstTakesShare(d, l.journal, y);
    var c := d.(ptr := Some(Pointer(z, y)), link := Some(z), records := d.records - {z}, pending := {});
    CompletedStays(d.(ptr := Some(Pointer(z, y)), pending := {}), l.prune, w);
    RecoverParts(d, l, w, w2);
    assert Repaired(d, l, w) == c && !Dropped(d, l);
    ReconcileStays(c, l.again, w2);
  }

  lemma FirstOf(d: Disk, listing: seq<Version>) returns (z: Version)
    requires Lists(d, listing) && d.dirs != map[]
    ensures listing != [] && z == listing[0] && z in d.dirs
  {
    var x :| x in d.dirs;
    assert x in d.dirs.Keys && x in listing;
    z := listing[0];
    assert z in listing;
  }

  /** Repairing a completed promotion beside a staged version links it and keeps both. */
  lemma CompletedStays(d: Disk, listing: seq<Version>, w: World)
    requires d.ptr.Some? && d.ptr.value.version in d.dirs && d.link == None && (forall x :: x in listing ==>
      x in d.dirs)
    requires d.dirs.Keys <= d.records
    ensures Run(d, Repair(d, listing, w))
      == d.(link := Some(d.ptr.value.version), records := d.records - {d.ptr.value.version})
  {
    var z := d.ptr.value.version;
    var e := d.(records := d.records - {z});
    PruneNothing(e, listing, {z}, w);
    assert Repair(d, listing, w) == [SetLink(z), RmRecord(z)];
    RunTwo(d, SetLink(z), RmRecord(z));
  }

  lemma ReconcileStays(d: Disk, listing: seq<Version>, w: World)
    requires d.ptr.Some? && d.share == Some(d.ptr.value.ih) && (forall x :: x in listing ==> x in d.dirs)
    requires forall x :: x in d.dirs ==> x == d.ptr.value.version || x in d.records
    ensures Run(d, Reconcile(d, false, listing, w)) == d
  {
    PruneNothing(d, listing, {d.ptr.value.version}, w);
    var e := WriteShare(Some(d.ptr.value.ih));
    assert Reconcile(d, false, listing, w) == [e];
    assert Run(d, [e]) == Apply(d, e) == d;
  }
}
