/**
 capTorrents (src/node.ts:1231-1244): the cap on owned catalog torrents, least recently used idle ones first.
 */
module CatalogCap {
  import opened CatalogBook

  /** The owned torrents that count against the cap. */
  function OwnedLive(b: Book): set<Ref> {
    set r | r in b.recs && InRefs(b, r) && b.recs[r].owned && Live(b, r)
  }

  /** Owned torrents nobody reads that a publisher retains. */
  function Parked(b: Book): set<Ref> {
    set r | r in OwnedLive(b) && b.recs[r].readers == 0 && b.recs[r].retainedBy != {}
  }

  predicate Known(b: Book, order: seq<Ref>) {
    forall i :: 0 <= i < |order| ==> order[i] in b.recs
  }

  predicate AllOwned(b: Book, order: seq<Ref>) {
    Known(b, order) && forall i :: 0 <= i < |order| ==> b.recs[order[i]].owned
  }

  predicate Sorted(b: Book, order: seq<Ref>)
    requires Known(b, order)
  {
    forall i, j :: 0 <= i < j < |order| ==> b.recs[order[i]].lastUse <= b.recs[order[j]].lastUse
  }

  predicate Distinct(order: seq<Ref>) {
    forall i, j :: 0 <= i < j < |order| ==> order[i] != order[j]
  }

  /** `order` lists the owned torrents by last use. */
  ghost predicate ByUse(b: Book, order: seq<Ref>) {
    && (forall r :: r in order <==> r in OwnedLive(b))
    && AllOwned(b, order) && Distinct(order) && Sorted(b, order)
  }

  /** The first `excess` torrents of `order` without readers. */
  function Picked(b: Book, order: seq<Ref>, excess: nat): set<Ref>
    requires Known(b, order)
  {
    if order == [] || excess == 0 then {}
    else if b.recs[order[0]].readers > 0 then Picked(b, order[1..], excess)
    else {order[0]} + Picked(b, order[1..], excess - 1)
  }

  /** The eviction loop. */
  function Evict(s: State, order: seq<Ref>, excess: nat): State
    requires AllOwned(s.b, order)
    decreases order
  {
    if order == [] || excess == 0 then s
    else if s.b.recs[order[0]].readers > 0 then Evict(s, order[1..], excess)
    else Evict(EvictOne(s, order[0]), order[1..], excess - 1)
  }

  function EvictOne(s: State, r: Ref): State
    requires r in s.b.recs
  {
    MaybeDestroy(s.(b := Detach(s.b, r)), r)
  }

  ghost function Cap(s: State, order: seq<Ref>, max: nat): State
    requires ByUse(s.b, order)
  {
    if |order| <= max then s else Evict(s, order, |order| - max)
  }

  lemma EvictOneOk(s: State, r: Ref)
    requires Core(s) && r in s.b.recs && NoLeakBut(s.b, s.queues, {})
    ensures Core(EvictOne(s, r)) && NoLeakBut(EvictOne(s, r).b, EvictOne(s, r).queues, {})
  {
    var s1 := s.(b := Detach(s.b, r));
    DetachOk(s.b, s.queues, r, {});
    DetachCounted(s.b, r, s.readers);
    hide BookOk, QueuesOk, NoLeakBut, Counted;
    MaybeDestroyOk(s1, r, {r});
    assert {} + {r} == {r};
    assert {r} - {r} == {};
  }

  lemma DetachCounted(b: Book, r: Ref, readers: map<nat, Reader>)
    requires Counted(b, readers) && r in b.recs
    ensures Counted(Detach(b, r), readers)
  {}

  lemma {:induction false} EvictOk(s: State, order: seq<Ref>, excess: nat)
    requires Core(s) && NoLeakBut(s.b, s.queues, {})
    requires AllOwned(s.b, order)
    ensures Core(Evict(s, order, excess)) && NoLeakBut(Evict(s, order, excess).b, Evict(s, order, excess).queues, {})
    decreases order
  {
    hide Core, NoLeakBut;
    if order == [] || excess == 0 {
    } else if s.b.recs[order[0]].readers > 0 {
      EvictOk(s, order[1..], excess);
    } else {
      EvictOneOk(s, order[0]);
      EvictOk(EvictOne(s, order[0]), order[1..], excess - 1);
    }
  }

  /** Eviction takes exactly the picked records out of use: their retentions go, and nothing else changes. */
  ghost predicate Evicted(b: Book, c: Book, picked: set<Ref>) {
    && c.torrents == b.torrents && c.refs == b.refs && c.gens == b.gens && c.dirs == b.dirs
    && c.recs.Keys == b.recs.Keys
    && (forall r :: r in b.recs ==> c.recs[r] == if r in picked then b.recs[r].(retainedBy := {}) else b.recs[r])
    && (forall pk :: pk in c.current <==> pk in b.current && !(b.current[pk] in picked))
    && (forall pk :: pk in c.current ==> c.current[pk] == b.current[pk])
  }

  lemma EvictOneEffect(s: State, r: Ref)
    requires Retention(s.b) && r in s.b.recs && s.b.recs[r].owned
    ensures Evicted(s.b, EvictOne(s, r).b, {r}) && Retention(EvictOne(s, r).b)
  {}

  lemma EvictedTwice(b: Book, c: Book, d: Book, p: set<Ref>, q: set<Ref>)
    requires Evicted(b, c, p) && Evicted(c, d, q)
    ensures Evicted(b, d, p + q)
  {}

  lemma {:induction false} PickedSame(b: Book, c: Book, order: seq<Ref>, excess: nat)
    requires Known(b, order) && Known(c, order) && forall i :: 0 <= i < |order| ==>
      c.recs[order[i]].readers == b.recs[order[i]].readers
    ensures Picked(b, order, excess) == Picked(c, order, excess)
    decreases order
  {
    if order == [] || excess == 0 {
    } else if b.recs[order[0]].readers > 0 {
      PickedSame(b, c, order[1..], excess);
    } else {
      PickedSame(b, c, order[1..], excess - 1);
    }
  }

  lemma {:induction false} EvictEffect(s: State, order: seq<Ref>, excess: nat)
    requires Retention(s.b) && AllOwned(s.b, order)
    ensures Evicted(s.b, Evict(s, order, excess).b, Picked(s.b, order, excess))
    ensures Evict(s, order, excess).readers == s.readers && Evict(s, order, excess).nextReader == s.nextReader
    decreases order
  {
    hide Retention;
    if order == [] || excess == 0 {
    } else if s.b.recs[order[0]].readers > 0 {
      EvictEffect(s, order[1..], excess);
    } else {
      var s1 := EvictOne(s, order[0]);
      EvictOneEffect(s, order[0]);
      PickedSame(s.b, s1.b, order[1..], excess - 1);
      EvictEffect(s1, order[1..], excess - 1);
      hide Picked, Evicted;
      EvictedTwice(s.b, s1.b, Evict(s, order, excess).b, {order[0]}, Picked(s1.b, order[1..], excess - 1));
      hide EvictOne;
      EvictUnfold(s, order, excess);
      PickedUnfold(s.b, order, excess);
    }
  }

  lemma EvictUnfold(s: State, order: seq<Ref>, excess: nat)
    requires AllOwned(s.b, order)
    requires order != [] && excess > 0 && s.b.recs[order[0]].readers == 0
    ensures Evict(s, order, excess) == Evict(EvictOne(s, order[0]), order[1..], excess - 1)
  {}

  lemma PickedUnfold(b: Book, order: seq<Ref>, excess: nat)
    requires Known(b, order) && order != [] && excess > 0 && b.recs[order[0]].readers == 0
    ensures Picked(b, order, excess) == {order[0]} + Picked(b, order[1..], excess - 1)
  {}

  /** Picked are idle ones, no more recently used than any idle one that is left. */
  lemma {:induction false} LeastRecentlyUsed(b: Book, order: seq<Ref>, excess: nat)
    requires Known(b, order) && Sorted(b, order)
    ensures forall r :: r in Picked(b, order, excess) ==> r in order && b.recs[r].readers == 0
    ensures forall r, q ::
      && r in Picked(b, order, excess) && q in order && q !in Picked(b, order, excess) && b.recs[q].readers == 0
      ==> b.recs[r].lastUse <= b.recs[q].lastUse
    decreases order
  {
    if order == [] || excess == 0 {
    } else {
      var rest := order[1..];
      assert order == [order[0]] + rest;
      if b.recs[order[0]].readers > 0 {
        LeastRecentlyUsed(b, rest, excess);
      } else {
        LeastRecentlyUsed(b, rest, excess - 1);
        forall r, q | r in Picked(b, order, excess) && q in order && q !in Picked(b, order, excess)
          && b.recs[q].readers == 0
          ensures b.recs[r].lastUse <= b.recs[q].lastUse
        {
          assert q in rest;
          if r == order[0] {
            var j :| 0 <= j < |rest| && rest[j] == q;
            assert order[j + 1] == q;
          }
        }
      }
    }
  }

  /** Idle torrents of `order`. */
  function Spare(b: Book, order: seq<Ref>): set<Ref>
    requires Known(b, order)
  {
    set r | r in order && b.recs[r].readers == 0
  }

  lemma SpareStep(b: Book, order: seq<Ref>)
    requires Known(b, order) && Distinct(order) && order != []
    ensures order[0] !in order[1..]
    ensures Spare(b, order) == (if b.recs[order[0]].readers > 0 then {} else {order[0]}) + Spare(b, order[1..])
  {
    var rest := order[1..];
    assert order == [order[0]] + rest;
    forall j | 0 <= j < |rest| ensures rest[j] != order[0] { assert rest[j] == order[j + 1]; }
  }

  /** Exactly `excess` are picked, or every idle one. */
  lemma {:induction false} PickedEnough(b: Book, order: seq<Ref>, excess: nat)
    requires Known(b, order) && Distinct(order)
    ensures Picked(b, order, excess) <= Spare(b, order)
    ensures |Picked(b, order, excess)| == excess || Picked(b, order, excess) == Spare(b, order)
    ensures |Spare(b, order)| <= |order|
    decreases order
  {
    if order == [] {
      assert Spare(b, order) == {};
    } else {
      SpareStep(b, order);
      hide Spare, Distinct;
      assert Distinct(order[1..]) by { RestDistinct(order); }
      if b.recs[order[0]].readers > 0 {
        PickedEnough(b, order[1..], excess);
      } else {
        PickedEnough(b, order[1..], if excess == 0 then 0 else excess - 1);
        assert order[0] !in Spare(b, order[1..]) by { SpareIn(b, order[1..]); }
      }
    }
  }

  lemma RestDistinct(order: seq<Ref>)
    requires Distinct(order) && order != []
    ensures Distinct(order[1..])
  {}

  lemma SpareIn(b: Book, order: seq<Ref>)
    requires Known(b, order)
    ensures forall r :: r in Spare(b, order) ==> r in order
  {}

  /** After a pass no more than `max` owned torrents sit retained without a reader. */
  lemma CapBound(s: State, order: seq<Ref>, max: nat)
    requires Retention(s.b) && ByUse(s.b, order)
    ensures |Parked(Cap(s, order, max).b)| <= max
  {
    var c := Cap(s, order, max).b;
    hide Retention;
    PickedEnough(s.b, order, 0);
    if |order| <= max {
      Subset(Parked(c), Spare(s.b, order));
    } else {
      var excess := |order| - max;
      EvictEffect(s, order, excess);
      PickedEnough(s.b, order, excess);
      var picked := Picked(s.b, order, excess);
      hide Evict, Picked;
      ParkedLeft(s.b, c, order, picked);
      Subset(Parked(c), Spare(s.b, order) - picked);
    }
  }

  lemma ParkedLeft(b: Book, c: Book, order: seq<Ref>, picked: set<Ref>)
    requires ByUse(b, order) && Evicted(b, c, picked)
    ensures Parked(c) <= Spare(b, order) - picked
  {}

  lemma {:induction false} Subset<T>(x: set<T>, y: set<T>)
    requires x <= y
    ensures |x| <= |y|
  {
    if x != {} {
      var e :| e in x;
      Subset(x - {e}, y - {e});
    }
  }

  /**
   Enough idle torrents to get back under the cap, or all there are; none more recently used than an idle one kept.
   */
  ghost predicate LeastRecent(b: Book, max: nat, picked: set<Ref>) {
    && picked <= OwnedLive(b)
    && (|OwnedLive(b)| <= max ==> picked == {})
    && (|OwnedLive(b)| > max ==>
         |picked| == |OwnedLive(b)| - max || forall r :: r in OwnedLive(b) && b.recs[r].readers == 0 ==> r in picked)
    && (forall r :: r in picked ==> b.recs[r].readers == 0)
    && (forall r, q :: r in picked && q in OwnedLive(b) && q !in picked && b.recs[q].readers == 0 ==>
         b.recs[r].lastUse <= b.recs[q].lastUse)
  }

  /** A pass evicts exactly such a choice, and changes no other record. */
  lemma CapIsLru(s: State, order: seq<Ref>, max: nat)
    requires Retention(s.b) && ByUse(s.b, order)
    ensures exists picked :: Evicted(s.b, Cap(s, order, max).b, picked) && LeastRecent(s.b, max, picked)
  {
    assert |OwnedLive(s.b)| == |order| by { OrderLength(OwnedLive(s.b), order); }
    if |order| <= max {
      assert Evicted(s.b, Cap(s, order, max).b, {}) && LeastRecent(s.b, max, {});
    } else {
      var excess := |order| - max;
      var picked := Picked(s.b, order, excess);
      EvictEffect(s, order, excess);
      PickedEnough(s.b, order, excess);
      LeastRecentlyUsed(s.b, order, excess);
      assert Cap(s, order, max).b == Evict(s, order, excess).b;
      hide Evict, Picked, Evicted, Cap, Retention, Distinct, Sorted;
      assert LeastRecent(s.b, max, picked);
      assert Evicted(s.b, Cap(s, order, max).b, picked);
    }
  }

  lemma {:induction false} OrderLength(x: set<Ref>, order: seq<Ref>)
    requires Distinct(order) && forall r :: r in order <==> r in x
    ensures |x| == |order|
  {
    if order == [] {
      assert x == {};
    } else {
      var rest := order[1..];
      assert order == [order[0]] + rest;
      forall j | 0 <= j < |rest| ensures rest[j] != order[0] { assert rest[j] == order[j + 1]; }
      OrderLength(x - {order[0]}, rest);
    }
  }
}
