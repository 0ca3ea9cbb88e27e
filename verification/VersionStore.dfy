/**
 The same repository as the code changes it (src/versions.ts:108-203, src/hf.ts:584-632, src/node.ts:548-630):
 fields updated in place, one effect at a time, by methods that a crash may stop after any effect.
 */
module VersionStore {
  import opened Options
  import opened VersionDisk
  import opened VersionCrash

  /** From d with n effects left before the crash, es was carried out to its end (ok) or as far as n allows. */
  ghost predicate Done(d: Disk, es: seq<Effect>, n: nat, c: Disk, left: nat, ok: bool) {
    c == Run(d, Cut(es, n)) && (ok <==> |es| <= n) && left == if ok then n - |es| else 0
  }

  lemma DoneThen(d: Disk, es: seq<Effect>, n: nat, c: Disk, m: nat, fs: seq<Effect>, e: Disk, left: nat, ok: bool)
    requires Done(d, es, n, c, m, true) && Done(c, fs, m, e, left, ok)
    ensures Done(d, es + fs, n, e, left, ok)
  {
    assert Cut(es, n) == es;
    RunAppend(d, es, Cut(fs, m));
    assert Cut(es + fs, n) == es + Cut(fs, m);
  }

  lemma DoneStop(d: Disk, es: seq<Effect>, n: nat, c: Disk, fs: seq<Effect>)
    requires Done(d, es, n, c, 0, false)
    ensures Done(d, es + fs, n, c, 0, false)
  {
    assert (es + fs)[..n] == es[..n];
  }

  lemma DoneNone(d: Disk, n: nat)
    ensures Done(d, [], n, d, n, true)
  {}

  class Store {
    var ptr: Option<Pointer>
    var link: Option<Version>
    var share: Option<Ih>
    var pending: set<Version>
    var records: set<Version>
    var dirs: map<Version, Ih>
    var left: nat   // effects until the crash

    function View(): Disk
      reads this
    {
      Disk(ptr, link, share, pending, records, dirs)
    }

    constructor (left: nat)
      ensures View() == Fresh() && Settled(View()) && this.left == left
    {
      ptr, link, share, pending, records, dirs := None, None, None, {}, {}, map[];
      this.left := left;
    }

    /** One atomic effect, unless the crash comes first. */
    method Do(e: Effect) returns (ok: bool)
      modifies this
      ensures Done(old(View()), [e], old(left), View(), left, ok)
      ensures ok ==> View() == Apply(old(View()), e)
    {
      ghost var d := View();
      assert Run(d, [e]) == Apply(d, e) && Run(d, []) == d;
      if left == 0 {
        assert Cut([e], 0) == [];
        return false;
      }
      left := left - 1;
      match e {
        case WritePending(v) => pending := pending + {v};
        case RmPending(v) => pending := pending - {v};
        case WriteRecord(v) => records := records + {v};
        case RmRecord(v) => records := records - {v};
        case WriteShare(s) => share := s;
        case WritePointer(p) => ptr := Some(p);
        case RmPointer => ptr := None;
        case SetLink(v) => link := Some(v);
        case Content(v, ih) => dirs := dirs[v := ih];
        case RmDir(v) => dirs := dirs - {v};
      }
      ok := true;
    }

    /** Two effects in a row. */
    method DoTwo(a: Effect, b: Effect) returns (ok: bool)
      modifies this
      ensures Done(old(View()), [a, b], old(left), View(), left, ok)
      ensures ok ==> View() == Apply(Apply(old(View()), a), b)
    {
      ghost var d, n := View(), left;
      assert [a] + [b] == [a, b];
      ok := Do(a);
      if !ok { DoneStop(d, [a], n, View(), [b]); return; }
      ghost var c, m := View(), left;
      ok := Do(b);
      DoneThen(d, [a], n, c, m, [b], View(), left, ok);
    }

    method DoAll(es: seq<Effect>) returns (ok: bool)
      modifies this
      ensures Done(old(View()), es, old(left), View(), left, ok)
      ensures ok ==> View() == Run(old(View()), es)
      decreases es
    {
      ghost var d, n := View(), left;
      DoneNone(d, n);
      ok := true;
      if es == [] { return; }
      assert es == [es[0]] + es[1..];
      ok := Do(es[0]);
      if !ok { DoneStop(d, [es[0]], n, View(), es[1..]); return; }
      ghost var c, m := View(), left;
      ok := DoAll(es[1..]);
      DoneThen(d, [es[0]], n, c, m, es[1..], View(), left, ok);
    }

    method PruneVersions(listing: seq<Version>, keep: set<Version>, w: World) returns (ok: bool)
      modifies this
      ensures Done(old(View()), Prune(old(View()), listing, keep, w), old(left), View(), left, ok)
      ensures ok ==> ptr == old(ptr)
    {
      ghost var d, n := View(), left;
      ghost var es: seq<Effect> := [];
      ghost var all := Prune(d, listing, keep, w);
      DoneNone(d, n);
      hide Done, Prune;
      var i := 0;
      assert listing[0..] == listing;
      while i < |listing|
        invariant 0 <= i <= |listing|
        invariant all == es + Prune(d, listing[i..], keep, w)
        invariant Done(d, es, n, View(), left, true)
        invariant ptr == old(ptr) && records == old(records) && pending == old(pending)
      {
        var v := listing[i];
        assert listing[i..][0] == v && listing[i..][1..] == listing[i + 1..];
        ghost var rest := Prune(d, listing[i + 1..], keep, w);
        PruneNext(d, listing[i..], keep, w);
        if !(v in keep || v in w.live || v in records || v in pending) {
          ghost var step := [Content(v, w.junk), RmDir(v)];
          assert all == es + (step + rest) == (es + step) + rest;
          ghost var c, m := View(), left;
          ok := DoTwo(Content(v, w.junk), RmDir(v));
          DoneThen(d, es, n, c, m, step, View(), left, ok);
          if !ok { NotDoneIsOut(d, es + step, n, View(), left); DoneStop(d, es + step, n, View(), rest); return; }
          es := es + step;
        } else {
          assert all == es + ([] + rest) == es + rest;
        }
        i := i + 1;
      }
      assert listing[i..] == [];
      PruneEnd(d, keep, w);
      assert all == es + [] == es;
      ok := true;
    }

    /** The journaled promotions, one directory after the other; `remove` when one was abandoned with its share. */
    method ReadJournal(listing: seq<Version>) returns (ok: bool, remove: bool)
      modifies this
      ensures Done(old(View()), Journal(old(View()), listing), old(left), View(), left, ok)
      ensures ok ==> remove == AnyDrop(old(View()), listing)
    {
      ghost var d, n := View(), left;
      ghost var es: seq<Effect> := [];
      ghost var all, any := Journal(d, listing), AnyDrop(d, listing);
      DoneNone(d, n);
      hide Done;
      remove := false;
      var i := 0;
      assert listing[0..] == listing;
      while i < |listing|
        invariant 0 <= i <= |listing|
        invariant all == es + Journal(View(), listing[i..])
        invariant any == (remove || AnyDrop(View(), listing[i..]))
        invariant Done(d, es, n, View(), left, true)
      {
        var v := listing[i];
        assert listing[i..][0] == v && listing[i..][1..] == listing[i + 1..];
        ghost var c, m := View(), left;
        ghost var step := JournalStep(c, v);
        ghost var rest := Journal(Run(c, step), listing[i + 1..]);
        assert all == es + (step + rest) == (es + step) + rest;
        ok := true;
        if v in pending {
          if ptr.Some? && ptr.value.version == v {
            ok := Do(RmPending(v));
          } else if share.Some? && ptr.None? {
            ok := DoTwo(WritePointer(Pointer(v, share.value)), RmPending(v));
          } else {
            if share.Some? && ptr.Some? && share.value != ptr.value.ih { remove := true; }
            ok := Do(RmPending(v));
          }
        } else {
          DoneNone(c, m);
        }
        DoneThen(d, es, n, c, m, step, View(), left, ok);
        if !ok { NotDoneIsOut(d, es + step, n, View(), left); DoneStop(d, es + step, n, View(), rest); return; }
        DoneIsRun(c, step, m, View(), left);
        es := es + step;
        i := i + 1;
      }
      assert all == es;
      ok := true;
    }

    /** recoverVersions for this repository after its journal: link, staging record, pruning. */
    method RepairLink(listing: seq<Version>, w: World) returns (ok: bool)
      modifies this
      ensures Done(old(View()), Repair(old(View()), listing, w), old(left), View(), left, ok)
    {
      ghost var d, n := View(), left;
      DoneNone(d, n);
      hide Done;
      if ptr.None? {
        ok := PruneVersions(listing, {}, w);
        return;
      }
      var v := ptr.value.version;
      if v !in dirs {
        ok := Do(RmPointer);
        ghost var rest := Prune(d, listing, {}, w);
        if !ok { NotDoneIsOut(d, [RmPointer], n, View(), left); DoneStop(d, [RmPointer], n, View(), rest); return; }
        ghost var c, m := View(), left;
        PruneFields(d, c, listing, {}, w);
        ok := PruneVersions(listing, {}, w);
        DoneThen(d, [RmPointer], n, c, m, rest, View(), left, ok);
        return;
      }
      ghost var head: seq<Effect> := if link != Some(v) then [SetLink(v)] else [];
      ghost var pruned := d.(records := d.records - {v});
      ghost var rest := Prune(pruned, listing, {v}, w);
      ok := true;
      if link != Some(v) { ok := Do(SetLink(v)); }
      if !ok {
        NotDoneIsOut(d, head, n, View(), left);
        DoneStop(d, head, n, View(), [RmRecord(v)]);
        DoneStop(d, head + [RmRecord(v)], n, View(), rest);
        return;
      }
      ghost var c, m := View(), left;
      ok := Do(RmRecord(v));
      DoneThen(d, head, n, c, m, [RmRecord(v)], View(), left, ok);
      if !ok {
        NotDoneIsOut(d, head + [RmRecord(v)], n, View(), left);
        DoneStop(d, head + [RmRecord(v)], n, View(), rest);
        return;
      }
      c, m := View(), left;
      PruneFields(pruned, c, listing, {v}, w);
      ok := PruneVersions(listing, {v}, w);
      DoneThen(d, head + [RmRecord(v)], n, c, m, rest, View(), left, ok);
    }

    /** recoverImports: what recoverVersions found is applied to shares.json, and the repository pruned again. */
    method ApplyShares(remove: bool, listing: seq<Version>, w: World) returns (ok: bool)
      modifies this
      ensures Done(old(View()), Reconcile(old(View()), remove, listing, w), old(left), View(), left, ok)
    {
      ghost var d, n := View(), left;
      DoneNone(d, n);
      hide Done;
      ghost var head: seq<Effect> := if remove then [WriteShare(None)] else [];
      ghost var tail: seq<Effect> :=
        if ptr.Some? then [WriteShare(Some(ptr.value.ih))] + Prune(d, listing, {ptr.value.version}, w) else [];
      ok := true;
      if remove { ok := Do(WriteShare(None)); }
      if !ok { NotDoneIsOut(d, head, n, View(), left); DoneStop(d, head, n, View(), tail); return; }
      if ptr.None? { assert head + tail == head; return; }
      ghost var c, m := View(), left;
      var p := ptr.value;
      ghost var rest := Prune(d, listing, {p.version}, w);
      assert head + tail == (head + [WriteShare(Some(p.ih))]) + rest;
      ok := Do(WriteShare(Some(p.ih)));
      DoneThen(d, head, n, c, m, [WriteShare(Some(p.ih))], View(), left, ok);
      if !ok {
        NotDoneIsOut(d, head + [WriteShare(Some(p.ih))], n, View(), left);
        DoneStop(d, head + [WriteShare(Some(p.ih))], n, View(), rest);
        return;
      }
      c, m := View(), left;
      PruneFields(d, c, listing, {p.version}, w);
      ok := PruneVersions(listing, {p.version}, w);
      DoneThen(d, head + [WriteShare(Some(p.ih))], n, c, m, rest, View(), left, ok);
    }

    method RecoverImports(l: Listings, w: World, w2: World) returns (ok: bool)
      modifies this
      ensures Done(old(View()), Recover(old(View()), l, w, w2), old(left), View(), left, ok)
    {
      ghost var d, n := View(), left;
      hide Done, Journal, Repair, Reconcile, Prune, AnyDrop;
      ghost var j := Journal(d, l.journal);
      ghost var r := Repair(Resolved(d, l), l.prune, w);
      ghost var s := Reconcile(Repaired(d, l, w), Dropped(d, l), l.again, w2);
      var remove;
      ok, remove := ReadJournal(l.journal);
      if !ok {
        NotDoneIsOut(d, j, n, View(), left);
        DoneStop(d, j, n, View(), r);
        DoneStop(d, j + r, n, View(), s);
        return;
      }
      DoneIsRun(d, j, n, View(), left);
      if ptr.Some? && ptr.value.version !in dirs { remove := true; }
      ghost var c, m := View(), left;
      ok := RepairLink(l.prune, w);
      DoneThen(d, j, n, c, m, r, View(), left, ok);
      if !ok {
        NotDoneIsOut(d, j + r, n, View(), left);
        DoneStop(d, j + r, n, View(), s);
        return;
      }
      DoneIsRun(c, r, m, View(), left);
      c, m := View(), left;
      ok := ApplyShares(remove, l.again, w2);
      DoneThen(d, j + r, n, c, m, s, View(), left, ok);
    }

    /** From the pointer on the transaction completes: link, journal, staging record, old versions. */
    method Commit(v: Version, ih: Ih, listing: seq<Version>, w: World) returns (ok: bool)
      modifies this
      ensures var d := old(View());
        Done(d, [WritePointer(Pointer(v, ih)), SetLink(v), RmPending(v), RmRecord(v)]
          + Prune(d.(records := d.records - {v}, pending := d.pending - {v}), listing, {v}, w), old(left), View(),
            left, ok)
    {
      ghost var d, n := View(), left;
      ghost var head := [WritePointer(Pointer(v, ih)), SetLink(v), RmPending(v), RmRecord(v)];
      ghost var clean := d.(records := d.records - {v}, pending := d.pending - {v});
      ghost var rest := Prune(clean, listing, {v}, w);
      ok := DoAll([WritePointer(Pointer(v, ih)), SetLink(v), RmPending(v), RmRecord(v)]);
      if !ok { NotDoneIsOut(d, head, n, View(), left); DoneStop(d, head, n, View(), rest); return; }
      ghost var c, m := View(), left;
      CommitFields(d, v, ih);
      PruneFields(clean, c, listing, {v}, w);
      hide Prune;
      ok := PruneVersions(listing, {v}, w);
      DoneThen(d, head, n, c, m, rest, View(), left, ok);
    }

    /** The promotion part of importLocked. */
    method PromoteVersion(v: Version, ih: Ih, how: Publish, listing: seq<Version>, w: World) returns (ok: bool)
      modifies this
      ensures Done(old(View()), Promote(old(View()), v, ih, how, listing, w), old(left), View(), left, ok)
    {
      ghost var d, n := View(), left;
      ghost var all := Promote(d, v, ih, how, listing, w);
      hide Done, Prune;
      var prevOwn, current := share, ptr;
      match how {
        case Refused(recorded) =>
          var undo := (if recorded then [WriteShare(Some(ih))] else [])
            + [WriteShare(prevOwn), Content(v, w.junk), RmDir(v), RmRecord(v)];
          ok := DoAll([WritePending(v)] + undo);
        case Cancelled =>
          assert all == [WritePending(v), WriteShare(Some(ih)), WriteShare(d.share), RmPending(v)];
          ok := DoAll([WritePending(v), WriteShare(Some(ih)), WriteShare(prevOwn), RmPending(v)]);
        case Published =>
          if current.Some? && current.value.ih == ih {
            var drop := if v in w.live then [] else [Content(v, w.junk), RmDir(v)];
            assert all == [WritePending(v), WriteShare(Some(ih)), RmPending(v), RmRecord(v)] + drop
              + [WriteShare(Some(ih))];
            ok := DoAll([WritePending(v), WriteShare(Some(ih)), RmPending(v), RmRecord(v)] + drop
              + [WriteShare(Some(ih))]);
          } else {
            ghost var head := [WritePending(v), WriteShare(Some(ih))];
            ghost var tail := [WritePointer(Pointer(v, ih)), SetLink(v), RmPending(v), RmRecord(v)]
              + Prune(d.(records := d.records - {v}, pending := d.pending - {v}), listing, {v}, w);
            assert all == head + tail;
            ok := DoTwo(WritePending(v), WriteShare(Some(ih)));
            if !ok { NotDoneIsOut(d, head, n, View(), left); DoneStop(d, head, n, View(), tail); return; }
            ghost var c, m := View(), left;
            PruneFields(d.(records := d.records - {v}, pending := d.pending - {v}),
              c.(records := c.records - {v}, pending := c.pending - {v}), listing, {v}, w);
            ok := Commit(v, ih, listing, w);
            DoneThen(d, head, n, c, m, tail, View(), left, ok);
          }
      }
    }

    /** importLocked: share an already promoted version again, or stage it and promote it. */
    method ImportVersion(v: Version, ih: Ih, partial: Ih, how: Publish, listing: seq<Version>,
                         w: World)
      returns (ok: bool)
      modifies this
      ensures Done(old(View()), Import(old(View()), v, ih, partial, how, listing, w), old(left), View(), left, ok)
      ensures old(Settled(View())) && ok ==> Settled(View()) && ptr == Lands(old(View()), v, ih, how)
    {
      ok := ImportSteps(v, ih, partial, how, listing, w);
      ghost var d := old(View());
      if Settled(d) && ok {
        ImportAlong(d, v, ih, partial, how, listing, w);
        DoneIsRun(d, Import(d, v, ih, partial, how, listing, w), old(left), View(), left);
      }
    }

    method ImportSteps(v: Version, ih: Ih, partial: Ih, how: Publish, listing: seq<Version>, w: World)
      returns (ok: bool)
      modifies this
      ensures Done(old(View()), Import(old(View()), v, ih, partial, how, listing, w), old(left), View(), left, ok)
    {
      ghost var d, n := View(), left;
      hide Done, Promote;
      if ptr.Some? && ptr.value.version == v {
        ok := DoAll(if v in dirs then [WriteShare(Some(dirs[v]))] else []);
        return;
      }
      ghost var s := Stage(v, ih, partial);
      ghost var tail := Promote(Run(d, s), v, ih, how, listing, w);
      ok := DoAll([Content(v, partial), RmPending(v), WriteRecord(v), Content(v, ih)]);
      if !ok { NotDoneIsOut(d, s, n, View(), left); DoneStop(d, s, n, View(), tail); return; }
      ghost var c, m := View(), left;
      ok := PromoteVersion(v, ih, how, listing, w);
      DoneThen(d, s, n, c, m, tail, View(), left, ok);
    }
  }

  lemma PruneNext(d: Disk, listing: seq<Version>, keep: set<Version>, w: World)
    requires listing != []
    ensures Prune(d, listing, keep, w) ==
      (if Spares(d, keep, w, listing[0]) then [] else [Content(listing[0], w.junk), RmDir(listing[0])])
      + Prune(d, listing[1..], keep, w)
  {}

  lemma PruneEnd(d: Disk, keep: set<Version>, w: World)
    ensures Prune(d, [], keep, w) == []
  {}

  lemma CommitFields(d: Disk, v: Version, ih: Ih)
    ensures var c := Run(d, [WritePointer(Pointer(v, ih)), SetLink(v), RmPending(v), RmRecord(v)]);
      c.records == d.records - {v} && c.pending == d.pending - {v}
  {
    var a := Apply(d, WritePointer(Pointer(v, ih)));
    var b := Apply(a, SetLink(v));
    var c := Apply(b, RmPending(v));
    var tail := [SetLink(v), RmPending(v), RmRecord(v)];
    assert [WritePointer(Pointer(v, ih)), SetLink(v), RmPending(v), RmRecord(v)][1..] == tail;
    assert tail[1..] == [RmPending(v), RmRecord(v)];
    assert [RmPending(v), RmRecord(v)][1..] == [RmRecord(v)];
    assert Run(c, [RmRecord(v)]) == Apply(c, RmRecord(v));
    assert Run(b, [RmPending(v), RmRecord(v)]) == Run(c, [RmRecord(v)]);
    assert Run(a, tail) == Run(b, [RmPending(v), RmRecord(v)]);
  }

  lemma NotDoneIsOut(d: Disk, es: seq<Effect>, n: nat, c: Disk, left: nat)
    requires Done(d, es, n, c, left, false)
    ensures left == 0
  {}

  lemma DoneIsRun(d: Disk, es: seq<Effect>, n: nat, c: Disk, left: nat)
    requires Done(d, es, n, c, left, true)
    ensures c == Run(d, es)
  {}
}
