/**
 The serial queue of every infohash (src/node.ts:1158-1165): settling an operation, and moving the running one
 to its next await.
 */
module CatalogQueues {
  import opened CatalogBook

  // ---- queues -----------------------------------------------------------------------------------

  predicate Waiting(s: State, ih: Ih) {
    |Queue(s.queues, ih)| > 0
  }

  function Head(s: State, ih: Ih): Task
    requires Waiting(s, ih)
  {
    Queue(s.queues, ih)[0]
  }

  /** The running operation settles. */
  function Pop(s: State, ih: Ih): State
    requires Waiting(s, ih)
  {
    s.(queues := s.queues[ih := Queue(s.queues, ih)[1..]])
  }

  /** The running operation reaches its next await. */
  function Advance(s: State, ih: Ih, t: Task): State
    requires Waiting(s, ih)
  {
    s.(queues := s.queues[ih := Queue(s.queues, ih)[0 := t]])
  }

  /** The record a queued destruction is about. */
  function Subject(t: Task): set<Ref> {
    if t.Check? then {t.ref} else {}
  }

  lemma PopQueues(s: State, ih: Ih)
    requires QueuesOk(s.b, s.queues) && Waiting(s, ih)
    ensures QueuesOk(s.b, Pop(s, ih).queues)
  {
    var q, q' := s.queues, Pop(s, ih).queues;
    assert forall i :: i != ih ==> Queue(q', i) == Queue(q, i);
    assert Queue(q', ih) == Queue(q, ih)[1..];
    assert |Queue(q', ih)| > 0 ==> Queue(q', ih)[0] == Queue(q, ih)[1];
  }

  lemma PopLeak(s: State, ih: Ih, x: set<Ref>)
    requires Waiting(s, ih) && NoLeakBut(s.b, s.queues, x)
    ensures NoLeakBut(s.b, Pop(s, ih).queues, x + Subject(Head(s, ih)))
  {
    var q, q' := s.queues, Pop(s, ih).queues;
    assert forall i :: i != ih ==> Queue(q', i) == Queue(q, i);
    assert Queue(q, ih) == [Head(s, ih)] + Queue(q', ih);
  }

  lemma PopCore(s: State, ih: Ih, x: set<Ref>)
    requires Core(s) && Waiting(s, ih) && NoLeakBut(s.b, s.queues, x)
    ensures Core(Pop(s, ih)) && NoLeakBut(s.b, Pop(s, ih).queues, x + Subject(Head(s, ih)))
  {
    hide BookOk, QueuesOk, NoLeakBut, Counted;
    PopQueues(s, ih);
    PopLeak(s, ih, x);
  }

  ghost predicate MayReach(s: State, ih: Ih, t: Task) {
    && HeadHolds(s.b, ih, t)
    && (t.Check? || t.Removing? ==> t.ref in s.b.recs && s.b.recs[t.ref].owned && s.b.recs[t.ref].ih == ih)
    && (t.Making? ==> forall ih' :: ih' != ih && Waiting(s, ih') && Head(s, ih').Making? ==> Head(s, ih').gen != t.gen)
  }

  lemma AdvanceQueues(s: State, ih: Ih, t: Task)
    requires QueuesOk(s.b, s.queues) && Waiting(s, ih) && MayReach(s, ih, t)
    ensures QueuesOk(s.b, Advance(s, ih, t).queues)
  {
    var q, q' := s.queues, Advance(s, ih, t).queues;
    assert forall i :: i != ih ==> Queue(q', i) == Queue(q, i);
    assert Queue(q', ih) == Queue(q, ih)[0 := t];
    assert forall i :: 0 < i < |Queue(q, ih)| ==> Queue(q', ih)[i] == Queue(q, ih)[i];
    assert forall i :: Waiting(s, i) <==> |Queue(q, i)| > 0;
    hide MayReach;
    assert MayReach(s, ih, t);
    AdvanceDistinct(s, ih, t);
    AdvanceQueued(s, ih, t);
    hide Queued, DistinctHeads;
    forall i | |Queue(q', i)| > 0
      ensures HeadHolds(s.b, i, Queue(q', i)[0])
    {
      if i != ih { assert HeadHolds(s.b, i, Queue(q, i)[0]); }
      else { AdvanceHead(s, ih, t); }
    }
  }

  lemma AdvanceHead(s: State, ih: Ih, t: Task)
    requires Waiting(s, ih) && MayReach(s, ih, t)
    ensures HeadHolds(s.b, ih, Queue(Advance(s, ih, t).queues, ih)[0])
  {}

  lemma AdvanceDistinct(s: State, ih: Ih, t: Task)
    requires DistinctHeads(s.queues) && Waiting(s, ih) && MayReach(s, ih, t)
    ensures DistinctHeads(Advance(s, ih, t).queues)
  {
    var q, q' := s.queues, Advance(s, ih, t).queues;
    assert forall i :: i != ih ==> Queue(q', i) == Queue(q, i);
    forall i, j | i != j && |Queue(q', i)| > 0 && |Queue(q', j)| > 0 && Queue(q', i)[0].Making?
      && Queue(q', j)[0].Making?
      ensures Queue(q', i)[0].gen != Queue(q', j)[0].gen
    {
      if i == ih { assert Waiting(s, j); }
      if j == ih { assert Waiting(s, i); }
    }
  }

  lemma AdvanceQueued(s: State, ih: Ih, t: Task)
    requires Queued(s.b, s.queues) && Waiting(s, ih) && MayReach(s, ih, t)
    ensures Queued(s.b, Advance(s, ih, t).queues)
  {
    var q, q' := s.queues, Advance(s, ih, t).queues;
    assert forall i :: i != ih ==> Queue(q', i) == Queue(q, i);
    assert Queue(q', ih) == Queue(q, ih)[0 := t];
  }

  lemma AdvanceLeak(s: State, ih: Ih, t: Task, x: set<Ref>)
    requires Waiting(s, ih) && NoLeakBut(s.b, s.queues, x)
    ensures NoLeakBut(s.b, Advance(s, ih, t).queues, x + Subject(Head(s, ih)))
  {
    var q, q' := s.queues, Advance(s, ih, t).queues;
    assert forall i :: i != ih ==> Queue(q', i) == Queue(q, i);
    forall c | c in Queue(q, ih) && c != Head(s, ih)
      ensures c in Queue(q', ih)
    {
      var i :| 0 <= i < |Queue(q, ih)| && Queue(q, ih)[i] == c;
      assert Queue(q', ih)[i] == c;
    }
  }

  lemma AdvanceCore(s: State, ih: Ih, t: Task, x: set<Ref>)
    requires Core(s) && Waiting(s, ih) && NoLeakBut(s.b, s.queues, x) && MayReach(s, ih, t)
    ensures Core(Advance(s, ih, t)) && NoLeakBut(s.b, Advance(s, ih, t).queues, x + Subject(Head(s, ih)))
  {
    hide BookOk, QueuesOk, NoLeakBut, Counted, MayReach;
    AdvanceQueues(s, ih, t);
    AdvanceLeak(s, ih, t, x);
  }
}
