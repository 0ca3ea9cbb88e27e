/**
 Reference-counted catalog torrents (src/node.ts): the atomic blocks between awaits as functions on the
 node's bookkeeping, and what every interleaving of them keeps.
 */
module CatalogBook {
  import opened Options

  type Ih = string
  type Pk = string
  type Tor = nat
  type Ref = nat

  datatype Torrent = Torrent(ih: Ih, closed: bool)

  /** TorrentRef. `gen` numbers the generation directory of an owned download. */
  datatype Rec = Rec(ih: Ih, torrent: Tor, owned: bool, gen: nat, readers: nat, retainedBy: set<Pk>, lastUse: nat)

  /** A queued operation of one infohash, with the await it has reached. */
  datatype Task =
    | Acquire(pk: Pk)            // not started
    | Getting(pk: Pk)            // awaiting client.get
    | Making(pk: Pk, gen: nat)   // awaiting mkdir
    | Check(ref: Ref)            // queued destruction, not started
    | Removing(ref: Ref)         // torrent destroyed, directory removal outstanding

  datatype Reader = Reader(pk: Pk, ref: Ref)

  /** The torrents of the client, the records, and the two maps that name them. */
  datatype Book = Book(
    torrents: map<Tor, Torrent>,
    recs: map<Ref, Rec>,
    refs: map<Ih, Ref>,
    current: map<Pk, Ref>,
    gens: nat,
    dirs: set<nat>)

  type Queues = map<Ih, seq<Task>>

  /** ... plus the serial queue of every infohash and the loads that hold a record. */
  datatype State = State(b: Book, queues: Queues, readers: map<nat, Reader>, nextReader: nat)

  function Queue(q: Queues, ih: Ih): seq<Task> { if ih in q then q[ih] else [] }
  function Enqueue(q: Queues, ih: Ih, t: Task): Queues { q[ih := Queue(q, ih) + [t]] }

  predicate Live(b: Book, r: Ref) {
    r in b.recs && b.recs[r].torrent in b.torrents && !b.torrents[b.recs[r].torrent].closed
  }

  predicate Idle(b: Book, r: Ref) {
    r in b.recs && b.recs[r].readers == 0 && b.recs[r].retainedBy == {}
  }

  predicate InRefs(b: Book, r: Ref) {
    r in b.recs && b.recs[r].ih in b.refs && b.refs[b.recs[r].ih] == r
  }

  // ---- the atomic blocks ------------------------------------------------------------------

  /** maybeDestroy: forget an idle borrowed record, queue the destruction of an idle owned one. */
  function MaybeDestroy(s: State, r: Ref): State
    requires r in s.b.recs
  {
    if !Idle(s.b, r) then s
    else if s.b.recs[r].owned then s.(queues := Enqueue(s.queues, s.b.recs[r].ih, Check(r)))
    else s.(b := Forget(s.b, r))
  }

  function Forget(b: Book, r: Ref): Book
    requires r in b.recs
  {
    if InRefs(b, r) then b.(refs := b.refs - {b.recs[r].ih}) else b
  }

  /** Drop every retention of r. */
  function Detach(b: Book, r: Ref): Book
    requires r in b.recs
  {
    b.(current := map pk | pk in b.current && !(pk in b.recs[r].retainedBy && b.current[pk] == r) :: b.current[pk],
       recs := b.recs[r := b.recs[r].(retainedBy := {})])
  }

  // ---- invariants ----------------------------------------------------------------------------

  /** Every name resolves. */
  ghost predicate Named(b: Book) {
    && (forall pk :: pk in b.current ==> b.current[pk] in b.recs)
    && (forall ih :: ih in b.refs ==> b.refs[ih] in b.recs && b.recs[b.refs[ih]].ih == ih)
    && (forall r :: r in b.recs ==> b.recs[r].torrent in b.torrents && b.torrents[b.recs[r].torrent].ih == b.recs[r].ih)
  }

  /** pk retains r exactly when r is pk's current catalog. */
  ghost predicate Retention(b: Book) {
    forall r, pk :: r in b.recs ==> (pk in b.recs[r].retainedBy <==> pk in b.current && b.current[pk] == r)
  }

  /** A live record that is owned, or that anybody uses, is the one its infohash resolves to. */
  ghost predicate Registered(b: Book) {
    forall r :: Live(b, r) && (b.recs[r].owned || !Idle(b, r)) ==> InRefs(b, r)
  }

  /** An owned record shares neither its torrent nor its directory with any other; a live one has its directory. */
  ghost predicate Exclusive(b: Book) {
    && (forall r, q :: r in b.recs && q in b.recs && r != q && b.recs[r].owned ==>
         b.recs[r].torrent != b.recs[q].torrent)
    && (forall r, q :: r in b.recs && q in b.recs && r != q && b.recs[r].owned && b.recs[q].owned ==>
         b.recs[r].gen != b.recs[q].gen)
    && (forall r :: r in b.recs && b.recs[r].owned ==> b.recs[r].gen <= b.gens)
    && (forall r :: Live(b, r) && b.recs[r].owned ==> b.recs[r].gen in b.dirs)
  }

  /** Queued destructions concern owned records of that infohash; only the head of a queue has started. */
  ghost predicate Queued(b: Book, q: Queues) {
    && (forall ih, i :: 0 <= i < |Queue(q, ih)| && (Queue(q, ih)[i].Check? || Queue(q, ih)[i].Removing?) ==>
          var r := Queue(q, ih)[i].ref; r in b.recs && b.recs[r].owned && b.recs[r].ih == ih)
    && (forall ih, i :: 0 < i < |Queue(q, ih)| ==> Queue(q, ih)[i].Acquire? || Queue(q, ih)[i].Check?)
  }

  /** What the head of a queue has committed to stays true across its awaits. */
  ghost predicate Heads(b: Book, q: Queues) {
    forall ih :: |Queue(q, ih)| > 0 ==> HeadHolds(b, ih, Queue(q, ih)[0])
  }

  ghost predicate HeadHolds(b: Book, ih: Ih, t: Task) {
    match t
    case Acquire(_) => true
    case Check(_) => true
    case Getting(_) => ih !in b.refs
    case Making(_, g) =>
      ih !in b.refs && g <= b.gens && forall r :: r in b.recs && b.recs[r].owned ==> b.recs[r].gen != g
    case Removing(r) => !Live(b, r) && Idle(b, r) && !InRefs(b, r)
  }

  /** Two infohashes never prepare the same generation. */
  ghost predicate DistinctHeads(q: Queues) {
    forall ih, ih' ::
      && ih != ih' && |Queue(q, ih)| > 0 && |Queue(q, ih')| > 0
      && Queue(q, ih)[0].Making? && Queue(q, ih')[0].Making?
      ==> Queue(q, ih)[0].gen != Queue(q, ih')[0].gen
  }

  ghost function Holders(readers: map<nat, Reader>, r: Ref): set<nat> {
    set h | h in readers && readers[h].ref == r
  }

  /** The reader count of a record is the number of loads holding it. */
  ghost predicate Counted(b: Book, readers: map<nat, Reader>) {
    && (forall h :: h in readers ==> readers[h].ref in b.recs)
    && (forall r :: r in b.recs ==> b.recs[r].readers == |Holders(readers, r)|)
  }

  /** An owned live record nobody uses has its destruction queued, x excepted. */
  ghost predicate NoLeakBut(b: Book, q: Queues, x: set<Ref>) {
    forall r :: Live(b, r) && b.recs[r].owned && Idle(b, r) && r !in x ==> Check(r) in Queue(q, b.recs[r].ih)
  }

  ghost predicate BookOk(b: Book) { Named(b) && Retention(b) && Registered(b) && Exclusive(b) }
  ghost predicate QueuesOk(b: Book, q: Queues) { Queued(b, q) && Heads(b, q) && DistinctHeads(q) }

  ghost predicate Core(s: State) {
    BookOk(s.b) && QueuesOk(s.b, s.queues) && Counted(s.b, s.readers) && forall h :: h in s.readers ==> h < s.nextReader
  }

  // ---- the building blocks keep them ----------------------------------------------------------

  lemma EnqueueCheck(b: Book, q: Queues, r: Ref)
    requires QueuesOk(b, q) && r in b.recs && b.recs[r].owned
    ensures QueuesOk(b, Enqueue(q, b.recs[r].ih, Check(r)))
  {
    var ih := b.recs[r].ih;
    var q' := Enqueue(q, ih, Check(r));
    assert forall i :: i != ih ==> Queue(q', i) == Queue(q, i);
    assert Queue(q', ih) == Queue(q, ih) + [Check(r)];
  }

  lemma EnqueueCheckLeak(b: Book, q: Queues, r: Ref, x: set<Ref>)
    requires NoLeakBut(b, q, x) && r in b.recs
    ensures NoLeakBut(b, Enqueue(q, b.recs[r].ih, Check(r)), x - {r})
  {
    var ih := b.recs[r].ih;
    var q' := Enqueue(q, ih, Check(r));
    assert forall i :: i != ih ==> Queue(q', i) == Queue(q, i);
    assert Queue(q', ih) == Queue(q, ih) + [Check(r)];
    assert Queue(q', ih)[|Queue(q, ih)|] == Check(r);
  }

  lemma ForgetNames(b: Book, r: Ref)
    requires Named(b) && Registered(b) && Idle(b, r) && !b.recs[r].owned
    ensures Named(Forget(b, r)) && Registered(Forget(b, r))
  {}

  lemma ForgetOk(b: Book, r: Ref)
    requires BookOk(b) && Idle(b, r) && !b.recs[r].owned
    ensures BookOk(Forget(b, r))
  {
    hide Named, Registered;
    ForgetNames(b, r);
  }

  lemma ForgetQueues(b: Book, q: Queues, r: Ref)
    requires Named(b) && QueuesOk(b, q) && r in b.recs && !b.recs[r].owned
    ensures QueuesOk(Forget(b, r), q)
  {
    var b' := Forget(b, r);
    forall ih | |Queue(q, ih)| > 0
      ensures HeadHolds(b', ih, Queue(q, ih)[0])
    {
      assert HeadHolds(b, ih, Queue(q, ih)[0]);
    }
  }

  lemma MaybeDestroyOk(s: State, r: Ref, x: set<Ref>)
    requires Core(s) && r in s.b.recs && NoLeakBut(s.b, s.queues, x)
    ensures Core(MaybeDestroy(s, r)) && NoLeakBut(MaybeDestroy(s, r).b, MaybeDestroy(s, r).queues, x - {r})
  {
    hide Named, Retention, Registered, Exclusive, Queued, Heads, DistinctHeads;
    if Idle(s.b, r) {
      if s.b.recs[r].owned {
        EnqueueCheck(s.b, s.queues, r);
        EnqueueCheckLeak(s.b, s.queues, r, x);
      } else {
        ForgetOk(s.b, r);
        ForgetQueues(s.b, s.queues, r);
      }
    }
  }

  // ---- changes to the use of one record -------------------------------------------------------

  /** From b to c only the readers, retainers and last use of r change, and which publishers name r. */
  ghost predicate UsageOf(b: Book, c: Book, r: Ref) {
    && r in b.recs && c.recs.Keys == b.recs.Keys
    && c.torrents == b.torrents && c.refs == b.refs && c.gens == b.gens && c.dirs == b.dirs
    && (forall q :: q in b.recs && q != r ==> c.recs[q] == b.recs[q])
    && SameTorrent(b.recs[r], c.recs[r])
    && (forall pk :: pk in c.current ==> c.current[pk] == r || (pk in b.current && b.current[pk] == c.current[pk]))
  }

  predicate SameTorrent(x: Rec, y: Rec) {
    x.ih == y.ih && x.torrent == y.torrent && x.owned == y.owned && x.gen == y.gen
  }

  /** Use may start only on the registered record, or on one already in use. */
  ghost predicate Startable(b: Book, c: Book, r: Ref)
    requires UsageOf(b, c, r)
  {
    Idle(c, r) || !Idle(b, r) || (Live(b, r) && InRefs(b, r))
  }

  lemma UsageNamed(b: Book, c: Book, r: Ref)
    requires UsageOf(b, c, r) && Named(b)
    ensures Named(c)
  {}

  lemma UsageExclusive(b: Book, c: Book, r: Ref)
    requires UsageOf(b, c, r) && Exclusive(b)
    ensures Exclusive(c)
  {}

  lemma UsageRegistered(b: Book, c: Book, r: Ref)
    requires UsageOf(b, c, r) && Registered(b) && Startable(b, c, r)
    ensures Registered(c)
  {}

  lemma UsageQueues(b: Book, c: Book, q: Queues, r: Ref)
    requires UsageOf(b, c, r) && QueuesOk(b, q) && Startable(b, c, r)
    ensures QueuesOk(c, q)
  {
    hide DistinctHeads;
    forall ih | |Queue(q, ih)| > 0
      ensures HeadHolds(c, ih, Queue(q, ih)[0])
    {
      assert HeadHolds(b, ih, Queue(q, ih)[0]);
    }
  }

  lemma UsageLeak(b: Book, c: Book, q: Queues, r: Ref, x: set<Ref>)
    requires UsageOf(b, c, r) && NoLeakBut(b, q, x)
    ensures NoLeakBut(c, q, x + {r})
    ensures Idle(b, r) || !Idle(c, r) ==> NoLeakBut(c, q, x)
  {}

  /** All of it but the retention of r. */
  lemma UsageKept(b: Book, c: Book, q: Queues, r: Ref, x: set<Ref>)
    requires UsageOf(b, c, r) && Startable(b, c, r) && BookOk(b) && QueuesOk(b, q) && NoLeakBut(b, q, x) && Retention(c)
    ensures BookOk(c) && QueuesOk(c, q) && NoLeakBut(c, q, x + {r})
    ensures Idle(b, r) || !Idle(c, r) ==> NoLeakBut(c, q, x)
  {
    hide UsageOf, Startable, Named, Retention, Registered, Exclusive, QueuesOk, NoLeakBut, Idle;
    UsageNamed(b, c, r);
    UsageExclusive(b, c, r);
    UsageRegistered(b, c, r);
    UsageQueues(b, c, q, r);
    UsageLeak(b, c, q, r, x);
  }

  // ---- the changes of use the code makes ----------------------------------------------------------

  /** ref.readers++, ref.lastUse = now. */
  function Use(b: Book, r: Ref, now: nat): Book
    requires r in b.recs
  {
    b.(recs := b.recs[r := b.recs[r].(readers := b.recs[r].readers + 1, lastUse := now)])
  }

  /** ref.readers--. */
  function Drop(b: Book, r: Ref): Book
    requires r in b.recs && b.recs[r].readers > 0
  {
    b.(recs := b.recs[r := b.recs[r].(readers := b.recs[r].readers - 1)])
  }

  function Touch(b: Book, r: Ref, now: nat): Book
    requires r in b.recs
  {
    b.(recs := b.recs[r := b.recs[r].(lastUse := now)])
  }

  /** r becomes the current catalog of pk. */
  function Hold(b: Book, pk: Pk, r: Ref, now: nat): Book
    requires r in b.recs
  {
    b.(current := b.current[pk := r],
       recs := b.recs[r := b.recs[r].(retainedBy := b.recs[r].retainedBy + {pk}, lastUse := now)])
  }

  /** pk's current catalog loses that retention. */
  function Unhold(b: Book, pk: Pk): Book
    requires pk in b.current && b.current[pk] in b.recs
  {
    var r := b.current[pk];
    b.(current := b.current - {pk}, recs := b.recs[r := b.recs[r].(retainedBy := b.recs[r].retainedBy - {pk})])
  }

  lemma UseOk(b: Book, q: Queues, r: Ref, now: nat, x: set<Ref>)
    requires BookOk(b) && QueuesOk(b, q) && NoLeakBut(b, q, x) && Live(b, r) && InRefs(b, r)
    ensures BookOk(Use(b, r, now)) && QueuesOk(Use(b, r, now), q) && NoLeakBut(Use(b, r, now), q, x)
  {
    hide Named, Registered, Exclusive, QueuesOk, NoLeakBut;
    UsageKept(b, Use(b, r, now), q, r, x);
  }

  lemma DropOk(b: Book, q: Queues, r: Ref, x: set<Ref>)
    requires BookOk(b) && QueuesOk(b, q) && NoLeakBut(b, q, x) && r in b.recs && b.recs[r].readers > 0
    ensures BookOk(Drop(b, r)) && QueuesOk(Drop(b, r), q) && NoLeakBut(Drop(b, r), q, x + {r})
  {
    hide Named, Registered, Exclusive, QueuesOk, NoLeakBut;
    UsageKept(b, Drop(b, r), q, r, x);
  }

  lemma TouchOk(b: Book, q: Queues, r: Ref, now: nat, x: set<Ref>)
    requires BookOk(b) && QueuesOk(b, q) && NoLeakBut(b, q, x) && r in b.recs
    ensures BookOk(Touch(b, r, now)) && QueuesOk(Touch(b, r, now), q) && NoLeakBut(Touch(b, r, now), q, x)
  {
    hide Named, Registered, Exclusive, QueuesOk, NoLeakBut;
    UsageKept(b, Touch(b, r, now), q, r, x);
  }

  lemma HoldOk(b: Book, q: Queues, pk: Pk, r: Ref, now: nat, x: set<Ref>)
    requires BookOk(b) && QueuesOk(b, q) && NoLeakBut(b, q, x) && r in b.recs && b.recs[r].readers > 0
      && pk !in b.current
    ensures BookOk(Hold(b, pk, r, now)) && QueuesOk(Hold(b, pk, r, now), q) && NoLeakBut(Hold(b, pk, r, now), q, x)
  {
    hide Named, Registered, Exclusive, QueuesOk, NoLeakBut;
    UsageKept(b, Hold(b, pk, r, now), q, r, x);
  }

  lemma UnholdOk(b: Book, q: Queues, pk: Pk, x: set<Ref>)
    requires BookOk(b) && QueuesOk(b, q) && NoLeakBut(b, q, x) && pk in b.current && b.current[pk] in b.recs
    ensures BookOk(Unhold(b, pk)) && QueuesOk(Unhold(b, pk), q) && NoLeakBut(Unhold(b, pk), q, x + {b.current[pk]})
  {
    hide Named, Registered, Exclusive, QueuesOk, NoLeakBut;
    UsageKept(b, Unhold(b, pk), q, b.current[pk], x);
  }

  lemma DetachOk(b: Book, q: Queues, r: Ref, x: set<Ref>)
    requires BookOk(b) && QueuesOk(b, q) && NoLeakBut(b, q, x) && r in b.recs
    ensures BookOk(Detach(b, r)) && QueuesOk(Detach(b, r), q) && NoLeakBut(Detach(b, r), q, x + {r})
  {
    hide Named, Registered, Exclusive, QueuesOk, NoLeakBut;
    UsageKept(b, Detach(b, r), q, r, x);
  }

  lemma AddHolder(b: Book, readers: map<nat, Reader>, h: nat, pk: Pk, r: Ref, now: nat)
    requires Counted(b, readers) && r in b.recs && h !in readers
    ensures Counted(Use(b, r, now), readers[h := Reader(pk, r)])
  {
    var readers' := readers[h := Reader(pk, r)];
    assert Holders(readers', r) == Holders(readers, r) + {h};
    assert forall q :: q != r ==> Holders(readers', q) == Holders(readers, q);
  }

  lemma DropHolder(b: Book, readers: map<nat, Reader>, h: nat)
    requires Counted(b, readers) && h in readers
    ensures var r := readers[h].ref; b.recs[r].readers > 0 && Counted(Drop(b, r), readers - {h})
  {
    var r := readers[h].ref;
    assert h in Holders(readers, r);
    assert Holders(readers - {h}, r) == Holders(readers, r) - {h};
    assert forall q :: q != r ==> Holders(readers - {h}, q) == Holders(readers, q);
  }

  // ---- records come and go ----------------------------------------------------------------------

  /** A fresh record r, with its first reader, becomes what its infohash resolves to. */
  function Register(b: Book, r: Ref, c: Rec): Book {
    b.(recs := b.recs[r := c], refs := b.refs[c.ih := r])
  }

  lemma RegisterOk(b: Book, r: Ref, c: Rec)
    requires BookOk(b) && r !in b.recs && c.ih !in b.refs && c.retainedBy == {} && c.readers == 1
    requires c.torrent in b.torrents && b.torrents[c.torrent].ih == c.ih
    requires forall q :: q in b.recs && (c.owned || b.recs[q].owned) ==> b.recs[q].torrent != c.torrent
    requires c.owned ==>
      c.gen <= b.gens && c.gen in b.dirs && forall q :: q in b.recs && b.recs[q].owned ==> b.recs[q].gen != c.gen
    ensures BookOk(Register(b, r, c))
  {
    RegisterNames(b, r, c);
    RegisterExclusive(b, r, c);
    hide Named, Registered, Exclusive;
  }

  lemma RegisterNames(b: Book, r: Ref, c: Rec)
    requires Named(b) && Registered(b) && r !in b.recs && c.ih !in b.refs
    requires c.torrent in b.torrents && b.torrents[c.torrent].ih == c.ih
    ensures Named(Register(b, r, c)) && Registered(Register(b, r, c))
  {}

  lemma RegisterExclusive(b: Book, r: Ref, c: Rec)
    requires Exclusive(b) && r !in b.recs
    requires forall q :: q in b.recs && (c.owned || b.recs[q].owned) ==> b.recs[q].torrent != c.torrent
    requires c.owned ==>
      c.gen <= b.gens && c.gen in b.dirs && forall q :: q in b.recs && b.recs[q].owned ==> b.recs[q].gen != c.gen
    ensures Exclusive(Register(b, r, c))
  {}
}
