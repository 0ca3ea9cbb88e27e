/**
 Which addresses a read hands to the DHT and which it passes over (src/node.ts:1049-1093), and which nodes our own
 catalog advertises (src/node.ts:886-903, src/bootstrap.ts:318-337), told of the entries themselves.
 */
module AdoptionEffects {
  import opened Options
  import opened Adoption

  // ---- what an entry must be ----------------------------------------------------------------------------------

  /** The entry parses to this address: IPv4, usable, and public unless private ones are allowed. */
  predicate Offers(c: Candidate, a: Addr, allowPrivate: bool) {
    c.Parsed? && c.addr == a && c.v4 && c.usable && (!c.isPrivate || allowPrivate)
  }

  /** Among the first n entries, and the first 200. */
  predicate Offered(nodes: seq<Candidate>, n: int, a: Addr, allowPrivate: bool) {
    exists i :: 0 <= i < |nodes| && i < n && i < 200 && Offers(nodes[i], a, allowPrivate)
  }

  /** New to us: not in the routing table, not on this publisher's books, and not adopted before a full table. */
  predicate Fresh(d: Draft, r: Read, a: Addr) {
    a !in r.inTable && a !in r.seenBefore && (r.tableFull ==> a !in d.adopted)
  }

  lemma OfferedMore(nodes: seq<Candidate>, m: int, n: int, a: Addr, allowPrivate: bool)
    requires Offered(nodes, m, a, allowPrivate) && m <= n
    ensures Offered(nodes, n, a, allowPrivate)
  {
    var i :| 0 <= i < |nodes| && i < m && i < 200 && Offers(nodes[i], a, allowPrivate);
    assert i < n && Offers(nodes[i], a, allowPrivate);
  }

  // ---- only such entries are admitted ---------------------------------------------------------------------------

  /** d0 began the pass and d stands before the k-th entry. */
  ghost predicate Midway(d0: Draft, d: Draft, nodes: seq<Candidate>, r: Read, k: nat) {
    && (forall a :: a in d.admitted ==> Offered(nodes, k, a, r.allowPrivate) && Fresh(d0, r, a))
    && (forall a :: a in d.adopted ==> a in d0.adopted || a in d.admitted)
    && forall a :: a in d.admitted ==> a in d.inRead
  }

  lemma MidwayStep(d0: Draft, d: Draft, nodes: seq<Candidate>, r: Read, k: nat)
    requires Midway(d0, d, nodes, r, k) && k < |nodes| && k < INSPECT
    requires forall a :: a in d0.adopted ==> a in d.adopted
    ensures Midway(d0, Consider(d, nodes[k], r), nodes, r, k + 1)
    ensures forall a :: a in d0.adopted ==> a in Consider(d, nodes[k], r).adopted
  {
    var c := nodes[k];
    var e := Consider(d, c, r);
    forall a | a in e.admitted ensures Offered(nodes, k + 1, a, r.allowPrivate) && Fresh(d0, r, a) {
      if a in d.admitted {
        OfferedMore(nodes, k, k + 1, a, r.allowPrivate);
      } else {
        assert a == c.addr && Offers(nodes[k], a, r.allowPrivate);
      }
    }
  }

  // ---- and all of them are, while the budgets last --------------------------------------------------------------

  /** No budget is left: 20 in this read, 20 of this publisher ever, 100 in this process. */
  predicate Exhausted(d: Draft) { |d.admitted| >= 20 || d.st.n >= 20 || d.session >= 100 }

  /** Why a new address on offer may be passed over: four of its /24 are on the books, or a full table knew it. */
  predicate PassedOver(d0: Draft, d: Draft, r: Read, a: Addr) {
    CountOf(d.st, a.subnet) >= 4 || (r.tableFull && a in d0.adopted)
  }

  /** Every address on offer among the first k entries that we do not know was admitted or passed over. */
  ghost predicate Thorough(d0: Draft, d: Draft, nodes: seq<Candidate>, r: Read, k: nat) {
    && (forall a :: Offered(nodes, k, a, r.allowPrivate) && a !in r.inTable && a !in r.seenBefore ==>
         a in d.admitted || PassedOver(d0, d, r, a))
    && forall a :: a in d.inRead ==> a in d.admitted || PassedOver(d0, d, r, a)
  }

  lemma ThoroughStep(d0: Draft, d: Draft, nodes: seq<Candidate>, r: Read, k: nat)
    requires Thorough(d0, d, nodes, r, k) && Midway(d0, d, nodes, r, k) && k < |nodes| && k < INSPECT
    ensures Thorough(d0, Consider(d, nodes[k], r), nodes, r, k + 1)
  {
    var c := nodes[k];
    var e := Consider(d, c, r);
    assert forall a :: a in d.admitted ==> a in e.admitted;
    assert forall a :: PassedOver(d0, d, r, a) ==> PassedOver(d0, e, r, a);
    forall a | Offered(nodes, k + 1, a, r.allowPrivate) && a !in r.inTable && a !in r.seenBefore
      ensures a in e.admitted || PassedOver(d0, e, r, a)
    {
      if !Offered(nodes, k, a, r.allowPrivate) {
        var i :| 0 <= i < |nodes| && i < k + 1 && i < 200 && Offers(nodes[i], a, r.allowPrivate);
        assert i == k;
      }
    }
  }

  /** The pass stops before the m-th entry: at the end, after 200 entries, or with a budget spent. */
  lemma {:induction false} WalkThorough(d0: Draft, d: Draft, nodes: seq<Candidate>, r: Read, k: nat) returns (m: nat)
    requires Thorough(d0, d, nodes, r, k) && Midway(d0, d, nodes, r, k)
    requires forall a :: a in d0.adopted ==> a in d.adopted
    ensures var f := Walk(d, nodes, r, k);
      Thorough(d0, f, nodes, r, m) && Midway(d0, f, nodes, r, m) && (m >= |nodes| || m >= 200 || Exhausted(f))
    decreases |nodes| - k
  {
    hide Midway, Thorough, Consider;
    if k < |nodes| && k < INSPECT && !Spent(d) {
      MidwayStep(d0, d, nodes, r, k);
      ThoroughStep(d0, d, nodes, r, k);
      m := WalkThorough(d0, Consider(d, nodes[k], r), nodes, r, k + 1);
    } else {
      m := k;
    }
  }

  /** What the pass admits was on offer and new to us. */
  lemma PassSound(d: Draft, nodes: seq<Candidate>, r: Read)
    requires d.admitted == [] && d.inRead == {}
    ensures forall a :: a in Walk(d, nodes, r, 0).admitted ==>
      Offered(nodes, |nodes|, a, r.allowPrivate) && Fresh(d, r, a)
  {
    var m := WalkThorough(d, d, nodes, r, 0);
    hide Walk;
    forall a | a in Walk(d, nodes, r, 0).admitted
      ensures Offered(nodes, |nodes|, a, r.allowPrivate) && Fresh(d, r, a)
    {
      OfferedAll(nodes, m, a, r.allowPrivate);
    }
  }

  /** The whole pass over a read's entries. */
  lemma ReadPass(w: World, pk: Pk, e: Event) returns (m: nat)
    requires Books(w) && e.Adopt?
    ensures var d := Outcome(w, pk, e); var d0 := Begin(w, pk); var r := ReadOf(w, pk, e);
      && Thorough(d0, d, e.nodes, r, m)
      && Midway(d0, d, e.nodes, r, m)
      && (m >= |e.nodes| || m >= 200 || Exhausted(d))
    ensures var d := Outcome(w, pk, e); var st0 := StateOf(w.file, pk);
      StateOk(d.st) && d.st.seen == st0.seen + d.admitted && |d.admitted| <= 20 && d.session == w.session + |d.admitted|
  {
    OutcomeOk(w, pk, e);
    var d0, r := Begin(w, pk), ReadOf(w, pk, e);
    hide Books, Outcome, StateOk;
    Untouched(w, pk, e);
    hide Thorough, Midway;
    m := WalkThorough(d0, d0, e.nodes, r, 0);
    assert Outcome(w, pk, e) == Walk(d0, e.nodes, r, 0) by { OutcomeIs(w, pk, e); }
  }

  lemma OutcomeIs(w: World, pk: Pk, e: Event)
    requires e.Adopt?
    ensures Outcome(w, pk, e) == Walk(Begin(w, pk), e.nodes, ReadOf(w, pk, e), 0)
  {}

  lemma Untouched(w: World, pk: Pk, e: Event)
    requires e.Adopt?
    ensures var d0 := Begin(w, pk); var r := ReadOf(w, pk, e);
      Thorough(d0, d0, e.nodes, r, 0) && Midway(d0, d0, e.nodes, r, 0)
  {}

  // ---- one read, on the node ---------------------------------------------------------------------------------------

  function Added(w: World, v: World): seq<Handed> {
    if |w.handed| <= |v.handed| then v.handed[|w.handed|..] else []
  }

  function Addresses(h: seq<Handed>): (s: seq<Addr>)
    ensures |s| == |h| && forall k :: 0 <= k < |h| ==> s[k] == h[k].addr
  {
    seq(|h|, k requires 0 <= k < |h| => h[k].addr)
  }

  /** This read may hand the address over: on offer among its first 200 entries and new to us. */
  ghost predicate Justifies(w: World, e: Event, h: Handed) {
    && e.Adopt? && e.fate.Written? && e.at == h.time && CanonPk(e.rawPk) == Some(h.pk)
    && Offered(e.nodes, |e.nodes|, h.addr, e.allowPrivate)
    && h.addr !in e.inTable && h.addr !in StateOf(w.file, h.pk).seen && (e.tableFull ==> h.addr !in w.adopted)
  }

  /** Nothing else is handed over. */
  lemma ReadSound(w: World, e: Event, h: Handed)
    requires Books(w)
    ensures w.handed <= Next(w, e).handed
    ensures h in Added(w, Next(w, e)) ==> Justifies(w, e, h)
  {
    if h in Added(w, Next(w, e)) {
      var pk := CanonPk(e.rawPk).value;
      var m := ReadPass(w, pk, e);
      var d := Outcome(w, pk, e);
      hide Books, Outcome, CanonPk, Thorough, StateOk;
      AddedAre(w, pk, d, e);
      var i :| 0 <= i < |Added(w, Next(w, e))| && Added(w, Next(w, e))[i] == h;
      assert h.addr in d.admitted;
      OfferedAll(e.nodes, m, h.addr, e.allowPrivate);
    } else {
      hide Outcome, CanonPk;
    }
  }

  lemma OfferedAll(nodes: seq<Candidate>, m: nat, a: Addr, allowPrivate: bool)
    requires Offered(nodes, m, a, allowPrivate)
    ensures Offered(nodes, |nodes|, a, allowPrivate)
  {
    var i :| 0 <= i < |nodes| && i < m && i < 200 && Offers(nodes[i], a, allowPrivate);
    assert Offers(nodes[i], a, allowPrivate);
  }

  lemma AddedAre(w: World, pk: Pk, d: Draft, e: Event)
    requires e.Adopt?
    ensures var v := Settle(w, pk, d, e); var given := Added(w, v);
      && v.session == d.session
      && |given| <= |d.admitted|
      && given == Pings(pk, d.admitted[..|given|], e.at)
      && (given != [] ==> e.fate.Written?)
      && (e.fate.Written? ==> |given| == if e.fate.pinged < |d.admitted| then e.fate.pinged else |d.admitted|)
      && (e.fate.Written? && d.admitted != [] ==> v.file.publishers == w.file.publishers[pk := d.st])
      && (e.fate.Unwritten? || d.admitted == [] ==> v.file == w.file)
  {
    var v := Settle(w, pk, d, e);
    var k := |Added(w, v)|;
    if d.admitted != [] && e.fate.Written? {
      assert v.handed[|w.handed|..] == Pings(pk, d.admitted[..k], e.at);
    }
  }

  /**
   A read that runs to its end hands over every new address on offer, unless four of its /24 are already on the books,
   or the table is full and the address was adopted before, or a budget ran out, and then only on earlier entries.
   */
  lemma ReadComplete(w: World, e: Event, pk: Pk, n: nat, a: Addr)
    requires Books(w) && e.Adopt? && CanonPk(e.rawPk) == Some(pk) && e.fate.Written? && e.fate.pinged >= 20
    requires n < |e.nodes| && n < 200 && Offers(e.nodes[n], a, e.allowPrivate)
    requires a !in e.inTable && a !in StateOf(w.file, pk).seen
    ensures var v := Next(w, e); var given := Added(w, v); var seen := StateOf(v.file, pk).seen;
      || Handed(pk, a, e.at) in given
      || |InNet(seen, a.subnet)| >= 4
      || (e.tableFull && a in w.adopted)
      || ((|given| >= 20 || |seen| >= 20 || v.session >= 100)
          && forall h :: h in given ==> Offered(e.nodes, n, h.addr, e.allowPrivate))
  {
    var m := ReadPass(w, pk, e);
    var d := Outcome(w, pk, e);
    AddedAre(w, pk, d, e);
    var given := Added(w, Next(w, e));
    assert d.admitted[..|d.admitted|] == d.admitted;
    assert given == Pings(pk, d.admitted, e.at);
    assert StateOf(Next(w, e).file, pk).seen == d.st.seen;
    CountsAre(d.st, a.subnet);
    hide Books, Outcome, CanonPk, StateOk, Added, Next;
    if m > n {
      assert Offered(e.nodes, m, a, e.allowPrivate);
      if a in d.admitted {
        var i :| 0 <= i < |d.admitted| && d.admitted[i] == a;
        assert given[i] == Handed(pk, a, e.at);
      }
    } else {
      forall h | h in given ensures Offered(e.nodes, n, h.addr, e.allowPrivate) {
        var i :| 0 <= i < |given| && given[i] == h;
        assert d.admitted[i] == h.addr;
        OfferedMore(e.nodes, m, n, h.addr, e.allowPrivate);
      }
    }
  }

  lemma CountsAre(st: AdoptState, subnet: string)
    requires StateOk(st)
    ensures st.n == |st.seen| && CountOf(st, subnet) == |InNet(st.seen, subnet)|
  {}

  /** What a read put on the publisher's books. */
  function Charged(w: World, v: World, pk: Pk): seq<Addr> {
    var was, seen := StateOf(w.file, pk).seen, StateOf(v.file, pk).seen;
    if |was| <= |seen| then seen[|was|..] else []
  }

  /**
   It charges the publisher's books and the process for the same addresses, at most 20, and nobody else, before it hands
   over the first of them: as many as the process lived to ping.  A file that was not written charges and hands over
   nothing.
   */
  lemma ReadCharges(w: World, e: Event, pk: Pk)
    requires Books(w) && e.Adopt? && CanonPk(e.rawPk) == Some(pk)
    ensures var v := Next(w, e); var given := Added(w, v);
      && StateOf(w.file, pk).seen <= StateOf(v.file, pk).seen
      && (forall other :: other != pk ==> StateOf(v.file, other) == StateOf(w.file, other))
      && (e.fate.Unwritten? ==> v.file == w.file && given == [])
      && (e.fate.Written? ==> var due := Charged(w, v, pk);
           && |due| <= 20
           && v.session == w.session + |due|
           && |given| == (if e.fate.pinged < |due| then e.fate.pinged else |due|)
           && Addresses(given) == due[..|given|])
  {
    var m := ReadPass(w, pk, e);
    var d := Outcome(w, pk, e);
    AddedAre(w, pk, d, e);
    hide Books, Outcome, CanonPk, StateOk;
    var v := Next(w, e);
    assert StateOf(w.file, pk).seen + [] == StateOf(w.file, pk).seen;
    if e.fate.Written? {
      assert StateOf(v.file, pk).seen == StateOf(w.file, pk).seen + d.admitted;
      assert Charged(w, v, pk) == d.admitted;
      assert Addresses(Added(w, v)) == d.admitted[..|Added(w, v)|];
    }
  }

  // ---- over every run ---------------------------------------------------------------------------------------------

  ghost predicate HandedAt(w: World, es: seq<Event>, k: nat, h: Handed)
    requires k < |es|
  {
    Justifies(Run(w, es[..k]), es[k], h)
  }

  lemma {:induction false} RunStep(w: World, es: seq<Event>, k: nat)
    requires 0 < k <= |es|
    ensures Run(w, es[..k]) == Run(Next(w, es[0]), es[1..][..k - 1])
  {
    assert es[..k][0] == es[0] && es[..k][1..] == es[1..][..k - 1];
  }

  lemma {:induction false} RunSound(w: World, es: seq<Event>, h: Handed)
    requires Books(w) && h in Added(w, Run(w, es))
    ensures exists k :: 0 <= k < |es| && HandedAt(w, es, k, h)
    decreases es
  {
    if es == [] {
      assert false;
    } else {
      var v := Next(w, es[0]);
      ReadSound(w, es[0], h);
      NextBooks(w, es[0]);
      RunGrows(v, es[1..]);
      var z := Run(v, es[1..]);
      hide Books, Next, Justifies;
      if h in Added(w, v) {
        assert es[..0] == [] && Run(w, []) == w;
        assert HandedAt(w, es, 0, h);
      } else {
        assert h in Added(v, z) by { AddedLater(w.handed, v.handed, z.handed, h); }
        RunSound(v, es[1..], h);
        var k :| 0 <= k < |es[1..]| && HandedAt(v, es[1..], k, h);
        RunStep(w, es, k + 1);
        assert es[1..][k] == es[k + 1];
        assert HandedAt(w, es, k + 1, h);
      }
    }
  }

  lemma AddedLater(a: seq<Handed>, b: seq<Handed>, c: seq<Handed>, h: Handed)
    requires a <= b <= c && h in c[|a|..] && h !in b[|a|..]
    ensures h in c[|b|..]
  {
    assert c[|a|..] == b[|a|..] + c[|b|..];
  }

  lemma {:induction false} RunGrows(w: World, es: seq<Event>)
    requires Books(w)
    ensures w.handed <= Run(w, es).handed
    decreases es
  {
    hide Books, Next;
    if es == [] {
      assert Run(w, es) == w;
    } else {
      ReadSound(w, es[0], Handed("", Addr("", ""), 0));
      NextBooks(w, es[0]);
      RunGrows(Next(w, es[0]), es[1..]);
    }
  }

  /**
   Over every run, with crashes and restarts anywhere, each address handed to the DHT was on offer among the first 200
   entries of a read of that publisher's catalog: IPv4, usable, public unless private ones are allowed, in neither our
   routing table nor that publisher's books.
   */
  lemma HandedWasOffered(es: seq<Event>, h: Handed)
    requires h in Run(Empty(), es).handed
    ensures exists k :: 0 <= k < |es| && HandedAt(Empty(), es, k, h)
  {
    var v := Run(Empty(), es);
    assert v.handed[0..] == v.handed;
    assert Books(Empty());
    RunSound(Empty(), es, h);
  }

  // ---- our own catalog ---------------------------------------------------------------------------------------------

  /** The table holds the address, IPv4 and public unless private ones are allowed, among its first n entries. */
  predicate Held(table: seq<Candidate>, n: nat, a: Addr, allowPrivate: bool) {
    exists i :: 0 <= i < |table| && i < n && table[i].Parsed? && table[i].addr == a && table[i].v4
      && (!table[i].isPrivate || allowPrivate)
  }

  /** Adopted less than an hour ago. */
  predicate Young(w: World, a: Addr, now: Time) { a in w.adopted && now < w.adopted[a] + 3_600_000 }

  /**
   The catalog names table entries only, none twice, none adopted within the hour, at most 20; and any such entry that
   it leaves out comes after 20 others.
   */
  lemma {:induction false} AdvertisedExact(w: World, table: seq<Candidate>, allowPrivate: bool, now: Time, k: nat)
    requires k <= |table|
    ensures var out := Advertised(w, table, allowPrivate, now, k);
      && NoRepeats(out)
      && |out| <= 20
      && (forall a :: a in out ==> Held(table, k, a, allowPrivate) && !Young(w, a, now))
      && forall n: nat, a :: n <= k && Held(table, n, a, allowPrivate) && !Young(w, a, now) && a !in out ==>
           |out| == 20 && forall b :: b in out ==> Held(table, n, b, allowPrivate)
  {
    if k == 0 {
    } else {
      AdvertisedExact(w, table, allowPrivate, now, k - 1);
      var was := Advertised(w, table, allowPrivate, now, k - 1);
      var out := Advertised(w, table, allowPrivate, now, k);
      AdvertisedStep(w, table, allowPrivate, now, k);
      hide Advertised, Young;
      forall n: nat, a | n <= k && Held(table, n, a, allowPrivate) && !Young(w, a, now) && a !in out
        ensures |out| == 20 && forall b :: b in out ==> Held(table, n, b, allowPrivate)
      {
        if n == k {
          assert Held(table, k - 1, a, allowPrivate) ==>
            |was| == 20 && forall b :: b in was ==> Held(table, k - 1, b, allowPrivate);
          HeldMore(table, k, a, allowPrivate);
          forall b | b in out ensures Held(table, k, b, allowPrivate) { HeldMore(table, k, b, allowPrivate); }
        }
      }
      forall a | a in was ensures Held(table, k, a, allowPrivate) { HeldMore(table, k, a, allowPrivate); }
    }
  }

  /** The k-th entry adds its address if it may and is new. */
  lemma AdvertisedStep(w: World, table: seq<Candidate>, allowPrivate: bool, now: Time, k: nat)
    requires 0 < k <= |table|
    ensures var was := Advertised(w, table, allowPrivate, now, k - 1); var c := table[k - 1];
      Advertised(w, table, allowPrivate, now, k) ==
        if |was| < 20 && c.Parsed? && c.v4 && (!c.isPrivate || allowPrivate) && !Young(w, c.addr, now) && c.addr !in was
        then was + [c.addr] else was
  {}

  lemma HeldMore(table: seq<Candidate>, k: nat, a: Addr, allowPrivate: bool)
    requires 0 < k <= |table|
    ensures var c := table[k - 1];
      Held(table, k, a, allowPrivate) <==>
        Held(table, k - 1, a, allowPrivate)
        || (c.Parsed? && c.addr == a && c.v4 && (!c.isPrivate || allowPrivate))
  {
    if Held(table, k - 1, a, allowPrivate) {
      var i :| 0 <= i < |table| && i < k - 1 && table[i].Parsed? && table[i].addr == a && table[i].v4
        && (!table[i].isPrivate || allowPrivate);
      assert i < k;
    }
  }
}
