/**
 The node's catalog bookkeeping as the object it is (src/node.ts:1158-1260): fields updated in place by methods
 that loop over retainers and over the owned torrents.  Each method is one step of CatalogSteps.
 */
module CatalogNode {
  import opened Options
  import opened CatalogBook
  import opened CatalogQueues
  import opened CatalogCap
  import opened CatalogSteps
  import opened CatalogRuns
  import opened CatalogEffects

  class Node {
    const max: nat
    var torrents: map<Tor, Torrent>
    var recs: map<Ref, Rec>
    var refs: map<Ih, Ref>
    var current: map<Pk, Ref>
    var gens: nat
    var dirs: set<nat>
    var queues: Queues
    var readers: map<nat, Reader>
    var nextReader: nat

    function View(): State
      reads this
    {
      State(Book(torrents, recs, refs, current, gens, dirs), queues, readers, nextReader)
    }

    constructor (max: nat)
      ensures this.max == max && View() == Initial() && Inv(View(), max)
    {
      this.max := max;
      torrents, recs, refs, current, gens, dirs := map[], map[], map[], map[], 0, {};
      queues, readers, nextReader := map[], map[], 0;
      new;
      InitialOk(max);
    }

    /** Forget an idle borrowed record; queue the destruction of an idle owned one. */
    method MaybeDestroy(r: Ref)
      requires r in recs
      modifies this`refs, this`queues
      ensures View() == CatalogBook.MaybeDestroy(old(View()), r)
    {
      if recs[r].readers > 0 || recs[r].retainedBy != {} { return; }
      if !recs[r].owned {
        if recs[r].ih in refs && refs[recs[r].ih] == r { refs := refs - {recs[r].ih}; }
        return;
      }
      queues := Enqueue(queues, recs[r].ih, Check(r));
    }

    /** The loop over a record's retainers. */
    method Detach(r: Ref)
      requires r in recs
      modifies this`current, this`recs
      ensures r in recs
      ensures View() == old(View()).(b := CatalogBook.Detach(old(View()).b, r))
    {
      var todo := recs[r].retainedBy;
      ghost var all := todo;
      while todo != {}
        invariant todo <= all == old(recs[r].retainedBy)
        invariant recs == old(recs)
        invariant forall pk :: pk in current <==> pk in old(current) && !(pk in all - todo && old(current)[pk] == r)
        invariant forall pk :: pk in current ==> current[pk] == old(current)[pk]
        decreases |todo|
      {
        var pk :| pk in todo;
        if pk in current && current[pk] == r { current := current - {pk}; }
        todo := todo - {pk};
      }
      recs := recs[r := recs[r].(retainedBy := {})];
      assert current == CatalogBook.Detach(old(View()).b, r).current;
    }

    /** The owned torrents alive, least recently used first. */
    method SortedOwned() returns (order: seq<Ref>)
      ensures ByUse(View().b, order)
    {
      var b := View().b;
      var rest := OwnedLive(b);
      order := [];
      while rest != {}
        invariant rest <= OwnedLive(b)
        invariant forall r :: r in order <==> r in OwnedLive(b) - rest
        invariant AllOwned(b, order) && Distinct(order) && Sorted(b, order)
        decreases |rest|
      {
        var r :| r in rest;
        rest := rest - {r};
        order := InsertByUse(b, order, r);
      }
    }

    static method InsertByUse(b: Book, order: seq<Ref>, r: Ref) returns (more: seq<Ref>)
      requires AllOwned(b, order) && Distinct(order) && Sorted(b, order)
      requires r in b.recs && b.recs[r].owned && r !in order
      ensures AllOwned(b, more) && Distinct(more) && Sorted(b, more)
      ensures forall x :: x in more <==> x in order || x == r
    {
      var i := 0;
      while i < |order| && b.recs[order[i]].lastUse <= b.recs[r].lastUse
        invariant 0 <= i <= |order|
        invariant forall k :: 0 <= k < i ==> b.recs[order[k]].lastUse <= b.recs[r].lastUse
      {
        i := i + 1;
      }
      more := order[..i] + [r] + order[i..];
      Inserted(b, order, r, i, more);
    }

    /** The eviction loop: busy torrents are skipped, and it stops once enough idle ones are gone. */
    method EvictIdle(owned: seq<Ref>, surplus: nat)
      requires AllOwned(View().b, owned)
      modifies this`refs, this`queues, this`current, this`recs
      ensures View() == Evict(old(View()), owned, surplus)
    {
      hide AllOwned, Evict, CatalogBook.MaybeDestroy, CatalogBook.Detach;
      var excess := surplus;
      var i := 0;
      assert owned[0..] == owned;
      while i < |owned| && excess > 0
        invariant 0 <= i <= |owned|
        invariant AllOwned(View().b, owned[i..])
        invariant Evict(View(), owned[i..], excess) == Evict(old(View()), owned, surplus)
      {
        var r := owned[i];
        ghost var s := View();
        EvictStep(s, owned[i..], excess);
        assert owned[i..][0] == r && owned[i..][1..] == owned[i + 1..];
        if recs[r].readers == 0 {
          Detach(r);
          MaybeDestroy(r);
          excess := excess - 1;
        }
        i := i + 1;
      }
      EvictEnd(View(), owned[i..], excess);
    }

    method CapTorrents() returns (ghost order: seq<Ref>)
      modifies this`refs, this`queues, this`current, this`recs
      ensures ByUse(old(View()).b, order) && View() == Cap(old(View()), order, max)
    {
      var owned := SortedOwned();
      order := owned;
      if |owned| > max { EvictIdle(owned, |owned| - max); }
    }

    method Release(h: nat) returns (ghost order: seq<Ref>)
      requires h in readers && readers[h].ref in recs && recs[readers[h].ref].readers > 0
      modifies this
      ensures ByUse(LetGo(old(View()), h).b, order) && View() == Cap(LetGo(old(View()), h), order, max)
      ensures old(Core(View())) ==> Released(old(View()), View(), h, old(readers)[h].ref, max)
    {
      hide CatalogBook.MaybeDestroy, Cap, ByUse;
      var r := readers[h].ref;
      ghost var s := View();
      recs := recs[r := recs[r].(readers := recs[r].readers - 1)];
      readers := readers - {h};
      MaybeDestroy(r);
      assert View() == LetGo(s, h);
      order := CapTorrents();
      if Core(s) { ReleaseEffect(s, h, order, max); ReleaseNext(s, h, order, max); }
    }

    /** retain: nothing when `pk` already points at the record; otherwise the previous one goes first. */
    method Retain(pk: Pk, r: Ref, now: nat) returns (ghost order: seq<Ref>)
      requires r in recs && (pk in current ==> current[pk] in recs)
      modifies this
      ensures pk in old(current) && old(current)[pk] == r ==> View() == old(View())
      ensures !(pk in old(current) && old(current)[pk] == r) ==>
        ByUse(Repoint(old(View()), pk, r, now).b, order) && View() == Cap(Repoint(old(View()), pk, r, now), order, max)
      ensures old(Core(View()) && recs[r].readers > 0) ==>
        && pk in current && current[pk] == r && r in recs && pk in recs[r].retainedBy
        && ((pk in old(current) && old(current)[pk] == r) || Retained(old(View()), View(), pk, r, now, max))
    {
      hide CatalogBook.MaybeDestroy, Cap, ByUse;
      order := [];
      if pk in current && current[pk] == r {
        assert Core(View()) ==> Retention(View().b);
        return;
      }
      ghost var s := View();
      DropPrevious(pk);
      recs := recs[r := recs[r].(retainedBy := recs[r].retainedBy + {pk}, lastUse := now)];
      current := current[pk := r];
      assert View() == Repoint(s, pk, r, now);
      order := CapTorrents();
      if Core(s) && s.b.recs[r].readers > 0 { RepointCapped(s, pk, r, now, order, max); }
    }

    /** What `pk` pointed at loses that retention. */
    method DropPrevious(pk: Pk)
      requires pk in current ==> current[pk] in recs
      modifies this`current, this`recs, this`refs, this`queues
      ensures View() == Leave(old(View()), pk) && pk !in current
      ensures recs.Keys == old(recs).Keys
    {
      hide CatalogBook.MaybeDestroy;
      if pk in current {
        var prev := current[pk];
        current := current - {pk};
        recs := recs[prev := recs[prev].(retainedBy := recs[prev].retainedBy - {pk})];
        MaybeDestroy(prev);
      }
    }

    method Retire(pk: Pk, only: Option<Ih>)
      requires Named(View().b)
      modifies this
      ensures View() == RetireStep(old(View()), pk, only)
      ensures old(Core(View())) ==>
        if Wanted(old(View()).b, pk, only) then Left(old(View()), View(), pk) else View() == old(View())
    {
      hide Leave, Left;
      if Core(View()) { RetireEffect(View(), pk, only); }
      if pk !in current { return; }
      if only.Some? && recs[current[pk]].ih != only.value { return; }
      DropPrevious(pk);
    }

    /** acquire up to its first await: reuse a live record, or detach a stale one and ask the client. */
    method AcquireBegin(ih: Ih, now: nat)
      requires Waiting(View(), ih) && Head(View(), ih).Acquire?
      requires ih in refs ==> refs[ih] in recs && recs[refs[ih]].torrent in torrents
      modifies this
      ensures View() == BeginStep(old(View()), ih, now)
      ensures old(Core(View())) && ih in old(refs) && Live(old(View()).b, old(refs)[ih]) ==>
        var c := old(recs)[old(refs)[ih]];
        Acquired(old(View()), View(), ih, old(refs)[ih], c.(readers := c.readers + 1, lastUse := now))
      ensures old(Core(View())) && !(ih in old(refs) && Live(old(View()).b, old(refs)[ih])) ==>
        Cleared(old(View()), View(), ih)
    {
      hide CatalogBook.MaybeDestroy, CatalogBook.Detach, Acquired, Cleared, Core;
      ghost var s := View();
      if Core(s) {
        if ih in s.b.refs && Live(s.b, s.b.refs[ih]) { AcquireLive(s, ih, now); } else { AcquireStale(s, ih, now); }
      }
      StaleWaits(s, ih);
      var pk := Queue(queues, ih)[0].pk;
      if ih in refs && !torrents[recs[refs[ih]].torrent].closed {
        var r := refs[ih];
        recs := recs[r := recs[r].(readers := recs[r].readers + 1, lastUse := now)];
        readers := readers[nextReader := Reader(pk, r)];
        nextReader := nextReader + 1;
        queues := queues[ih := Queue(queues, ih)[1..]];
      } else {
        if ih in refs {
          var r := refs[ih];
          Detach(r);
          refs := refs - {ih};
          MaybeDestroy(r);
        }
        assert View() == DetachStale(s, ih);
        queues := queues[ih := Queue(queues, ih)[0 := Getting(pk)]];
      }
    }

    /** The queued destruction: give up on a record that is used again, else destroy its torrent. */
    method DestroyCheck(ih: Ih)
      requires Named(View().b) && Queued(View().b, queues) && Waiting(View(), ih) && Head(View(), ih).Check?
      modifies this
      ensures View() == CheckStep(old(View()), ih)
      ensures old(Core(View())) ==> Decided(old(View()), View(), ih)
    {
      if Core(View()) { DestroyCheckEffect(View(), ih); }
      hide Decided, Core;
      var r := Queue(queues, ih)[0].ref;
      HeadOwned(View(), ih);
      hide Queued;
      if recs[r].readers > 0 || recs[r].retainedBy != {} {
        queues := queues[ih := Queue(queues, ih)[1..]];
        return;
      }
      if ih in refs && refs[ih] == r { refs := refs - {ih}; }
      var t := recs[r].torrent;
      torrents := torrents[t := torrents[t].(closed := true)];
      queues := queues[ih := Queue(queues, ih)[0 := Removing(r)]];
    }

    /** The destroyed record's own generation directory is removed, or its removal fails. */
    method DestroyDone(ih: Ih, removed: bool)
      requires Queued(View().b, queues) && Waiting(View(), ih) && Head(View(), ih).Removing?
      modifies this
      ensures View() == DoneStep(old(View()), ih, removed)
      ensures old(Core(View())) ==> Finished(old(View()), View(), ih, removed)
    {
      if Core(View()) { DestroyDoneEffect(View(), ih, removed); }
      hide Finished, Core;
      HeadOwned(View(), ih);
      hide Queued;
      if removed { dirs := dirs - {recs[Queue(queues, ih)[0].ref].gen}; }
      queues := queues[ih := Queue(queues, ih)[1..]];
    }
  }

  lemma Inserted(b: Book, order: seq<Ref>, r: Ref, i: nat, more: seq<Ref>)
    requires AllOwned(b, order) && Distinct(order) && Sorted(b, order)
    requires r in b.recs && b.recs[r].owned && r !in order && i <= |order| && more == order[..i] + [r] + order[i..]
    requires forall k :: 0 <= k < i ==> b.recs[order[k]].lastUse <= b.recs[r].lastUse
    requires i < |order| ==> b.recs[r].lastUse < b.recs[order[i]].lastUse
    ensures AllOwned(b, more) && Distinct(more) && Sorted(b, more)
    ensures forall x :: x in more <==> x in order || x == r
  {
    assert forall k :: 0 <= k < |more| ==> more[k] == if k < i then order[k] else if k == i then r else order[k - 1];
    assert forall x :: x in order <==> x in order[..i] || x in order[i..]
      by { assert order == order[..i] + order[i..]; }
  }

  lemma EvictStep(s: State, order: seq<Ref>, excess: nat)
    requires AllOwned(s.b, order) && order != [] && excess > 0
    ensures order[0] in s.b.recs
    ensures s.b.recs[order[0]].readers > 0 ==>
      AllOwned(s.b, order[1..]) && Evict(s, order, excess) == Evict(s, order[1..], excess)
    ensures s.b.recs[order[0]].readers == 0 ==>
      && AllOwned(EvictOne(s, order[0]).b, order[1..])
      && Evict(s, order, excess) == Evict(EvictOne(s, order[0]), order[1..], excess - 1)
  {}

  lemma EvictEnd(s: State, order: seq<Ref>, excess: nat)
    requires AllOwned(s.b, order) && (order == [] || excess == 0)
    ensures Evict(s, order, excess) == s
  {}
}
