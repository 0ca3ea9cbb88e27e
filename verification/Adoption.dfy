/**
 Rationed adoption of DHT nodes recommended by other publishers' catalogs (src/node.ts:82-128, 886-903, 1035-1093):
 what one read may admit, what is persisted before anything is pinged, and what that bounds over every run,
 crash and restart.
 */
module Adoption {
  import opened Options

  type Pk = string
  type Time = nat

  const PER_PUBLISHER: nat := 20
  const PER_SESSION: nat := 100
  const PER_SUBNET: nat := 4
  const PER_READ: nat := 20
  const INSPECT: nat := 200
  const ADVERTISE: nat := 20
  const HOUR: nat := 60 * 60_000
  const DAY: nat := 24 * HOUR

  /** host:port of an IPv4 node; `subnet` is its /24. */
  datatype Addr = Addr(subnet: string, rest: string)

  /** A raw catalog entry, as parsing classifies it. */
  datatype Candidate = Junk | Parsed(addr: Addr, v4: bool, usable: bool, isPrivate: bool)

  /** Lifetime accounting of one publisher, and the file that holds it. */
  datatype AdoptState = AdoptState(n: nat, seen: seq<Addr>, subnets: map<string, nat>)
  datatype AdoptFile = AdoptFile(publishers: map<Pk, AdoptState>, adopted: map<Addr, Time>)

  // ---- canonical keys (canonPk) --------------------------------------------------------------------------

  predicate HexDigit(c: char) { '0' <= c <= '9' || 'a' <= c <= 'f' || 'A' <= c <= 'F' }

  function LowerChar(c: char): char { if 'A' <= c <= 'F' then c - 'A' + 'a' else c }

  function Lower(s: string): (t: string)
    ensures |t| == |s| && forall k :: 0 <= k < |s| ==> t[k] == LowerChar(s[k])
  {
    seq(|s|, k requires 0 <= k < |s| => LowerChar(s[k]))
  }

  function CanonPk(pk: string): Option<Pk> {
    if |pk| == 64 && forall k :: 0 <= k < 64 ==> HexDigit(pk[k]) then Some(Lower(pk)) else None
  }

  predicate HexLetters(s: string) {
    |s| == 64 && forall k :: 0 <= k < 64 ==> '0' <= s[k] <= '9' || 'a' <= s[k] <= 'f' || 'A' <= s[k] <= 'F'
  }

  /** The same letter but for its case. */
  predicate SameLetter(c: char, d: char) {
    c == d || ('a' <= c <= 'f' && d as int == c as int - 32) || ('A' <= c <= 'F' && d as int == c as int + 32)
  }

  /**
   Exactly the strings of 64 hexadecimal digits name a publisher; two name the same one exactly when they differ in case
   only, and a canonical key is its own.
   */
  lemma CanonicalKey(a: string, b: string)
    ensures CanonPk(a).Some? <==> HexLetters(a)
    ensures HexLetters(a) && HexLetters(b) ==>
      && (CanonPk(a) == CanonPk(b) <==> forall k :: 0 <= k < 64 ==> SameLetter(a[k], b[k]))
      && CanonPk(CanonPk(a).value) == CanonPk(a)
  {
    if HexLetters(a) && HexLetters(b) {
      var t, u := CanonPk(a).value, CanonPk(b).value;
      assert forall k :: 0 <= k < 64 ==> HexDigit(t[k]) && LowerChar(t[k]) == t[k];
      assert Lower(t) == t;
      forall k | 0 <= k < 64 ensures t[k] == u[k] <==> SameLetter(a[k], b[k]) {
        LowerSame(a[k], b[k]);
      }
      if forall k :: 0 <= k < 64 ==> SameLetter(a[k], b[k]) { assert t == u; }
    }
  }

  lemma LowerSame(c: char, d: char)
    requires HexDigit(c) && HexDigit(d)
    ensures LowerChar(c) == LowerChar(d) <==> SameLetter(c, d)
  {}

  // ---- one read ---------------------------------------------------------------------------------------------

  /** What the transaction is given besides the entries. */
  datatype Read = Read(allowPrivate: bool, inTable: set<Addr>, seenBefore: set<Addr>, tableFull: bool, now: Time)

  /** The transaction as it goes along. */
  datatype Draft = Draft(st: AdoptState, admitted: seq<Addr>, inRead: set<Addr>, session: nat, adopted: map<Addr, Time>)

  function CountOf(st: AdoptState, subnet: string): nat {
    if subnet in st.subnets then st.subnets[subnet] else 0
  }

  predicate Spent(d: Draft) {
    |d.admitted| >= PER_READ || d.st.n >= PER_PUBLISHER || d.session >= PER_SESSION
  }

  predicate Eligible(c: Candidate, r: Read) {
    c.Parsed? && c.usable && c.v4 && (r.allowPrivate || !c.isPrivate)
  }

  /** One entry: filters, dedupe within and across reads, then the budgets. */
  function Consider(d: Draft, c: Candidate, r: Read): Draft {
    if !Eligible(c, r) || c.addr in d.inRead || c.addr in r.inTable || c.addr in r.seenBefore then d
    else
      var e := d.(inRead := d.inRead + {c.addr});
      if CountOf(d.st, c.addr.subnet) >= PER_SUBNET then e
      else if r.tableFull && c.addr in d.adopted then e
      else Admit(e, c.addr, r.now)
  }

  function Admit(d: Draft, a: Addr, now: Time): Draft {
    Draft(
      AdoptState(d.st.n + 1, d.st.seen + [a], d.st.subnets[a.subnet := CountOf(d.st, a.subnet) + 1]),
      d.admitted + [a], d.inRead, d.session + 1, d.adopted[a := now])
  }

  /** The pass over at most INSPECT entries, from the k-th on. */
  function Walk(d: Draft, nodes: seq<Candidate>, r: Read, k: nat): Draft
    decreases |nodes| - k
  {
    if k >= |nodes| || k >= INSPECT || Spent(d) then d else Walk(Consider(d, nodes[k], r), nodes, r, k + 1)
  }

  // ---- accounting ----------------------------------------------------------------------------------------------

  predicate NoRepeats(s: seq<Addr>) {
    forall i, j :: 0 <= i < j < |s| ==> s[i] != s[j]
  }

  function InNet(s: seq<Addr>, subnet: string): seq<Addr> {
    if s == [] then [] else (if s[0].subnet == subnet then [s[0]] else []) + InNet(s[1..], subnet)
  }

  lemma {:induction false} InNetAppend(s: seq<Addr>, a: Addr, subnet: string)
    ensures InNet(s + [a], subnet) == InNet(s, subnet) + if a.subnet == subnet then [a] else []
  {
    var end := if a.subnet == subnet then [a] else [];
    if s == [] {
      assert s + [a] == [a] && [a][1..] == [];
      assert InNet([a], subnet) == end + InNet([], subnet) == end;
    } else {
      var all, rest := s + [a], InNet(s[1..], subnet);
      var first := if s[0].subnet == subnet then [s[0]] else [];
      assert all[0] == s[0] && all[1..] == s[1..] + [a];
      InNetAppend(s[1..], a, subnet);
      assert InNet(all, subnet) == first + (rest + end);
      assert first + (rest + end) == (first + rest) + end;
    }
  }

  /** The books balance: n addresses, none twice, the subnet counts exact, every budget kept. */
  ghost predicate StateOk(st: AdoptState) {
    && NoRepeats(st.seen) && st.n == |st.seen| <= PER_PUBLISHER
    && forall sub :: |InNet(st.seen, sub)| == CountOf(st, sub) <= PER_SUBNET
  }

  /** A draft in progress, begun at st0. */
  ghost predicate DraftOk(d: Draft, st0: AdoptState, session0: nat, adopted0: map<Addr, Time>, r: Read) {
    && StateOk(d.st) && d.st.seen == st0.seen + d.admitted
    && |d.admitted| <= PER_READ && d.session == session0 + |d.admitted| && (session0 <= PER_SESSION ==>
      d.session <= PER_SESSION)
    && (forall a :: a in d.admitted ==> a in d.inRead && a in d.adopted && d.adopted[a] == r.now)
    && (forall a :: a in adopted0 ==> a in d.adopted && (d.adopted[a] == adopted0[a] || d.adopted[a] == r.now))
    && (forall a :: a in d.adopted ==> (a in adopted0 && d.adopted[a] == adopted0[a]) || d.adopted[a] == r.now)
  }

  lemma AdmitOk(d: Draft, a: Addr, st0: AdoptState, session0: nat, adopted0: map<Addr, Time>, r: Read)
    requires DraftOk(d, st0, session0, adopted0, r) && !Spent(d) && CountOf(d.st, a.subnet) < PER_SUBNET
    requires a !in d.st.seen && a in d.inRead
    ensures DraftOk(Admit(d, a, r.now), st0, session0, adopted0, r)
  {
    var e := Admit(d, a, r.now);
    forall sub ensures |InNet(e.st.seen, sub)| == CountOf(e.st, sub) <= PER_SUBNET {
      InNetAppend(d.st.seen, a, sub);
      assert |InNet(d.st.seen, sub)| == CountOf(d.st, sub);
    }
    assert e.st.seen == st0.seen + e.admitted;
  }

  lemma ConsiderOk(d: Draft, c: Candidate, st0: AdoptState, session0: nat, adopted0: map<Addr, Time>, r: Read)
    requires DraftOk(d, st0, session0, adopted0, r) && !Spent(d) && r.seenBefore == (set a | a in st0.seen)
    ensures DraftOk(Consider(d, c, r), st0, session0, adopted0, r)
  {
    if Eligible(c, r) && c.addr !in d.inRead && c.addr !in r.inTable && c.addr !in r.seenBefore {
      assert c.addr !in d.st.seen;
      var e := d.(inRead := d.inRead + {c.addr});
      assert DraftOk(e, st0, session0, adopted0, r);
      if CountOf(d.st, c.addr.subnet) < PER_SUBNET {
        hide DraftOk;
        AdmitFrom(e, d, c.addr, st0, session0, adopted0, r);
      }
    }
  }

  lemma AdmitFrom(e: Draft, d: Draft, a: Addr, st0: AdoptState, session0: nat, adopted0: map<Addr, Time>, r: Read)
    requires e == d.(inRead := d.inRead + {a}) && DraftOk(e, st0, session0, adopted0, r) && !Spent(d)
    requires CountOf(d.st, a.subnet) < PER_SUBNET && a !in d.st.seen
    ensures DraftOk(Admit(e, a, r.now), st0, session0, adopted0, r)
  {
    AdmitOk(e, a, st0, session0, adopted0, r);
  }

  lemma {:induction false} WalkOk(d: Draft, nodes: seq<Candidate>, r: Read, k: nat, st0: AdoptState, session0: nat,
                                  adopted0: map<Addr, Time>)
    requires DraftOk(d, st0, session0, adopted0, r) && r.seenBefore == (set a | a in st0.seen)
    ensures DraftOk(Walk(d, nodes, r, k), st0, session0, adopted0, r)
    decreases |nodes| - k
  {
    hide DraftOk, Consider;
    if k < |nodes| && k < INSPECT && !Spent(d) {
      ConsiderOk(d, nodes[k], st0, session0, adopted0, r);
      WalkOk(Consider(d, nodes[k], r), nodes, r, k + 1, st0, session0, adopted0);
    }
  }

  // ---- the node over its lifetime -----------------------------------------------------------------------------

  /** An address handed to the DHT, on whose recommendation and when. */
  datatype Handed = Handed(pk: Pk, addr: Addr, time: Time)

  /** dht-adopt.json, the process's memory, and the history: what was ever handed over, where this process began. */
  datatype World = World(file: AdoptFile, adopted: map<Addr, Time>, session: nat, handed: seq<Handed>, born: nat,
    now: Time)

  /** How far the transaction got: not persisted, or persisted with the first `pinged` addresses handed over. */
  datatype Fate = Unwritten | Written(pinged: nat)

  datatype Event =
    | Adopt(rawPk: string, nodes: seq<Candidate>, allowPrivate: bool, inTable: set<Addr>, tableFull: bool, at: Time,
      fate: Fate)
    | Restart(at: Time)

  function StateOf(file: AdoptFile, pk: Pk): AdoptState {
    if pk in file.publishers then file.publishers[pk] else AdoptState(0, [], map[])
  }

  function ReadOf(w: World, pk: Pk, e: Event): Read
    requires e.Adopt?
  {
    Read(e.allowPrivate, e.inTable, (set a | a in StateOf(w.file, pk).seen), e.tableFull, e.at)
  }

  function Begin(w: World, pk: Pk): Draft { Draft(StateOf(w.file, pk), [], {}, w.session, w.adopted) }

  function Outcome(w: World, pk: Pk, e: Event): Draft
    requires e.Adopt?
  {
    Walk(Begin(w, pk), e.nodes, ReadOf(w, pk, e), 0)
  }

  function Pings(pk: Pk, addrs: seq<Addr>, now: Time): (h: seq<Handed>)
    ensures |h| == |addrs| && forall k :: 0 <= k < |addrs| ==> h[k] == Handed(pk, addrs[k], now)
  {
    seq(|addrs|, k requires 0 <= k < |addrs| => Handed(pk, addrs[k], now))
  }

  /** The file is written before anything is pinged; nothing is written when nothing was admitted. */
  function Settle(w: World, pk: Pk, d: Draft, e: Event): World
    requires e.Adopt?
  {
    var v := w.(adopted := d.adopted, session := d.session, now := e.at);
    if d.admitted == [] || e.fate.Unwritten? then v
    else
      var k := if e.fate.pinged < |d.admitted| then e.fate.pinged else |d.admitted|;
      v.(file := AdoptFile(w.file.publishers[pk := d.st], d.adopted),
         handed := w.handed + Pings(pk, d.admitted[..k], e.at))
  }

  /** Provenance older than a day, or from the future, is dropped when it is read back. */
  function Restore(adopted: map<Addr, Time>, now: Time): map<Addr, Time> {
    map a | a in adopted && adopted[a] <= now && now - adopted[a] < DAY :: adopted[a]
  }

  function Next(w: World, e: Event): World {
    match e
    case Adopt(_, _, _, _, _, _, _) =>
      (match CanonPk(e.rawPk)
       case None => w.(now := e.at)
       case Some(pk) => Settle(w, pk, Outcome(w, pk, e), e))
    case Restart(at) => World(w.file, Restore(w.file.adopted, at), 0, w.handed, |w.handed|, at)
  }

  function Run(w: World, es: seq<Event>): World
    decreases es
  {
    if es == [] then w else Run(Next(w, es[0]), es[1..])
  }

  /** The clock never goes back. */
  predicate Monotone(now: Time, es: seq<Event>)
    decreases es
  {
    es != [] ==> now <= es[0].at && Monotone(es[0].at, es[1..])
  }

  function Empty(): World { World(AdoptFile(map[], map[]), map[], 0, [], 0, 0) }

  // ---- invariant ------------------------------------------------------------------------------------------------

  ghost predicate FileOk(w: World) {
    forall pk :: pk in w.file.publishers ==> StateOk(w.file.publishers[pk])
  }

  /** Everything handed over is on its publisher's books, and none twice. */
  ghost predicate Accounted(w: World) {
    && (forall i :: 0 <= i < |w.handed| ==>
         w.handed[i].pk in w.file.publishers && w.handed[i].addr in w.file.publishers[w.handed[i].pk].seen)
    && (forall i, j :: 0 <= i < j < |w.handed| && w.handed[i].pk == w.handed[j].pk ==>
         w.handed[i].addr != w.handed[j].addr)
  }

  /** The adoption is remembered, or a day old. */
  predicate Remembered(h: Handed, adopted: map<Addr, Time>, now: Time) {
    (h.addr in adopted && h.time <= adopted[h.addr]) || h.time + DAY <= now
  }

  /** In memory and on disk. */
  ghost predicate Provenance(w: World) {
    && (forall a :: a in w.adopted ==> w.adopted[a] <= w.now)
    && (forall a :: a in w.file.adopted ==> w.file.adopted[a] <= w.now)
    && (forall i :: 0 <= i < |w.handed| ==>
          w.handed[i].time <= w.now && Remembered(w.handed[i], w.adopted, w.now)
            && Remembered(w.handed[i], w.file.adopted, w.now))
  }

  ghost predicate Session(w: World) {
    w.born <= |w.handed| <= w.born + w.session && w.session <= PER_SESSION
  }

  /** What bounds the rations; no clock enters it. */
  ghost predicate Books(w: World) {
    FileOk(w) && Accounted(w) && Session(w)
  }

  lemma BeginOk(w: World, pk: Pk, e: Event)
    requires FileOk(w) && e.Adopt?
    ensures DraftOk(Begin(w, pk), StateOf(w.file, pk), w.session, w.adopted, ReadOf(w, pk, e))
  {
    var d := Begin(w, pk);
    assert d.st.seen + [] == d.st.seen;
  }

  lemma OutcomeOk(w: World, pk: Pk, e: Event)
    requires FileOk(w) && e.Adopt?
    ensures DraftOk(Outcome(w, pk, e), StateOf(w.file, pk), w.session, w.adopted, ReadOf(w, pk, e))
  {
    hide DraftOk;
    BeginOk(w, pk, e);
    WalkOk(Begin(w, pk), e.nodes, ReadOf(w, pk, e), 0, StateOf(w.file, pk), w.session, w.adopted);
  }

  /** What one read admits was not on the books before, and is there once. */
  lemma NewOnBooks(was: seq<Addr>, added: seq<Addr>, k: nat)
    requires NoRepeats(was + added) && k < |added|
    ensures added[k] !in was && added[k] in was + added && forall j :: 0 <= j < k ==> added[j] != added[k]
  {
    var all := was + added;
    assert all[|was| + k] == added[k];
    forall a | a in was ensures a != added[k] {
      var i :| 0 <= i < |was| && was[i] == a;
      assert all[i] == a;
    }
    forall j | 0 <= j < k ensures added[j] != added[k] {
      assert all[|was| + j] == added[j];
    }
  }

  lemma SettleAccounted(w: World, pk: Pk, d: Draft, e: Event)
    requires FileOk(w) && Accounted(w) && e.Adopt?
    requires StateOk(d.st) && d.st.seen == StateOf(w.file, pk).seen + d.admitted
    ensures FileOk(Settle(w, pk, d, e)) && Accounted(Settle(w, pk, d, e))
  {
    var v := Settle(w, pk, d, e);
    if d.admitted != [] && e.fate.Written? {
      var st0 := StateOf(w.file, pk);
      var k := |v.handed| - |w.handed|;
      hide Settle, InNet, CountOf, NoRepeats;
      assert StateOk(d.st) ==> NoRepeats(st0.seen + d.admitted);
      forall i | 0 <= i < k
        ensures d.admitted[i] !in st0.seen && d.admitted[i] in d.st.seen
        ensures forall j :: 0 <= j < i ==> d.admitted[j] != d.admitted[i]
      {
        NewOnBooks(st0.seen, d.admitted, i);
      }
      SettledHistory(w, v, pk, d, k, e.at);
    }
  }

  lemma SettledHistory(w: World, v: World, pk: Pk, d: Draft, k: nat, at: Time)
    requires Accounted(w) && k <= |d.admitted| && v.file.publishers == w.file.publishers[pk := d.st]
    requires v.handed == w.handed + Pings(pk, d.admitted[..k], at)
    requires forall a :: a in StateOf(w.file, pk).seen ==> a in d.st.seen
    requires forall i :: 0 <= i < k ==>
      d.admitted[i] !in StateOf(w.file, pk).seen && d.admitted[i] in d.st.seen
      && forall j :: 0 <= j < i ==> d.admitted[j] != d.admitted[i]
    ensures Accounted(v)
  {
    var n := |w.handed|;
    forall i | 0 <= i < |v.handed|
      ensures v.handed[i].pk in v.file.publishers && v.handed[i].addr in v.file.publishers[v.handed[i].pk].seen
    {
      if i >= n { assert v.handed[i] == Handed(pk, d.admitted[i - n], at); } else { assert v.handed[i] == w.handed[i]; }
    }
    forall i, j | 0 <= i < j < |v.handed| && v.handed[i].pk == v.handed[j].pk
      ensures v.handed[i].addr != v.handed[j].addr
    {
      if j >= n {
        assert v.handed[j] == Handed(pk, d.admitted[j - n], at);
        if i >= n {
          assert v.handed[i] == Handed(pk, d.admitted[i - n], at);
        } else {
          assert v.handed[i] == w.handed[i];
        }
      } else {
        assert v.handed[j] == w.handed[j] && v.handed[i] == w.handed[i];
      }
    }
  }

  lemma SettleProvenance(w: World, pk: Pk, d: Draft, e: Event)
    requires Provenance(w) && e.Adopt? && w.now <= e.at
    requires forall a :: a in d.admitted ==> a in d.adopted && d.adopted[a] == e.at
    requires forall a :: a in w.adopted ==> a in d.adopted && (d.adopted[a] == w.adopted[a] || d.adopted[a] == e.at)
    requires forall a :: a in d.adopted ==> (a in w.adopted && d.adopted[a] == w.adopted[a]) || d.adopted[a] == e.at
    ensures Provenance(Settle(w, pk, d, e))
  {
    var v := Settle(w, pk, d, e);
    forall i | 0 <= i < |v.handed|
      ensures v.handed[i].time <= v.now && Remembered(v.handed[i], v.adopted, v.now)
        && Remembered(v.handed[i], v.file.adopted, v.now)
    {
      if i < |w.handed| {
        assert v.handed[i] == w.handed[i];
        assert Remembered(w.handed[i], w.adopted, w.now) && Remembered(w.handed[i], w.file.adopted, w.now);
      } else {
        assert v.handed[i].addr in d.admitted;
      }
    }
  }

  /** The books balance after every event, whatever the clock does. */
  lemma NextBooks(w: World, e: Event)
    requires Books(w)
    ensures Books(Next(w, e))
  {
    match e
    case Adopt(_, _, _, _, _, _, _) =>
      match CanonPk(e.rawPk) {
        case None =>
        case Some(pk) =>
          var d := Outcome(w, pk, e);
          OutcomeOk(w, pk, e);
          hide FileOk, Accounted, StateOk, Outcome;
          SettleAccounted(w, pk, d, e);
      }
    case Restart(_) =>
  }

  /** With a clock that does not step back, every recent adoption is remembered after every event. */
  lemma NextProvenance(w: World, e: Event)
    requires Books(w) && Provenance(w) && w.now <= e.at
    ensures Provenance(Next(w, e))
  {
    match e
    case Adopt(_, _, _, _, _, _, _) =>
      match CanonPk(e.rawPk) {
        case None => TickProvenance(w, e.at);
        case Some(pk) =>
          var d := Outcome(w, pk, e);
          OutcomeOk(w, pk, e);
          hide Provenance, StateOk, Outcome;
          SettleProvenance(w, pk, d, e);
      }
    case Restart(at) =>
      var v := Next(w, e);
      forall i | 0 <= i < |v.handed|
        ensures Remembered(v.handed[i], v.adopted, v.now) && Remembered(v.handed[i], v.file.adopted, v.now)
      {
        assert Remembered(w.handed[i], w.file.adopted, w.now);
      }
  }

  lemma NextTime(w: World, e: Event)
    ensures Next(w, e).now == e.at
  {}

  lemma {:induction false} RunBooks(w: World, es: seq<Event>)
    requires Books(w)
    ensures Books(Run(w, es))
    decreases es
  {
    hide Books, Next;
    if es == [] {
      assert Run(w, es) == w;
    } else {
      NextBooks(w, es[0]);
      RunBooks(Next(w, es[0]), es[1..]);
    }
  }

  lemma {:induction false} RunProvenance(w: World, es: seq<Event>)
    requires Books(w) && Provenance(w) && Monotone(w.now, es)
    ensures Provenance(Run(w, es))
    decreases es
  {
    hide Books, Provenance, Next;
    if es == [] {
      assert Run(w, es) == w;
    } else {
      NextBooks(w, es[0]);
      NextProvenance(w, es[0]);
      NextTime(w, es[0]);
      RunProvenance(Next(w, es[0]), es[1..]);
    }
  }

  lemma TickProvenance(w: World, at: Time)
    requires Provenance(w) && w.now <= at
    ensures Provenance(w.(now := at))
  {
    forall i | 0 <= i < |w.handed|
      ensures Remembered(w.handed[i], w.adopted, at) && Remembered(w.handed[i], w.file.adopted, at)
    {
      assert Remembered(w.handed[i], w.adopted, w.now) && Remembered(w.handed[i], w.file.adopted, w.now);
    }
  }

  // ---- the bounds -------------------------------------------------------------------------------------------------

  /** What was handed over on pk's word. */
  function HandedBy(handed: seq<Handed>, pk: Pk): seq<Addr> {
    if handed == [] then [] else (if handed[0].pk == pk then [handed[0].addr] else []) + HandedBy(handed[1..], pk)
  }

  lemma {:induction false} HandedByIn(handed: seq<Handed>, pk: Pk, a: Addr)
    requires a in HandedBy(handed, pk)
    ensures exists i :: 0 <= i < |handed| && handed[i].pk == pk && handed[i].addr == a
  {
    if !(handed[0].pk == pk && handed[0].addr == a) {
      HandedByIn(handed[1..], pk, a);
      var i :| 0 <= i < |handed[1..]| && handed[1..][i].pk == pk && handed[1..][i].addr == a;
      assert handed[i + 1] == handed[1..][i];
    }
  }

  lemma {:induction false} HandedByDistinct(handed: seq<Handed>, pk: Pk)
    requires forall i, j :: 0 <= i < j < |handed| && handed[i].pk == handed[j].pk ==> handed[i].addr != handed[j].addr
    ensures NoRepeats(HandedBy(handed, pk))
  {
    if handed == [] {
    } else {
      var rest := HandedBy(handed[1..], pk);
      assert forall i :: 0 <= i < |handed[1..]| ==> handed[1..][i] == handed[i + 1];
      HandedByDistinct(handed[1..], pk);
      if handed[0].pk == pk {
        forall k | 0 <= k < |rest| ensures rest[k] != handed[0].addr {
          HandedByIn(handed[1..], pk, rest[k]);
        }
      }
    }
  }

  lemma {:induction false} InNetIn(s: seq<Addr>, sub: string)
    ensures forall a :: a in InNet(s, sub) <==> a in s && a.subnet == sub
    ensures NoRepeats(s) ==> NoRepeats(InNet(s, sub))
  {
    if s == [] {
    } else {
      InNetIn(s[1..], sub);
      assert s == [s[0]] + s[1..];
      if NoRepeats(s) {
        assert forall i :: 0 <= i < |s[1..]| ==> s[1..][i] == s[i + 1];
        assert s[0] !in s[1..];
      }
    }
  }

  /** Distinct addresses out of a list are no more than the list. */
  lemma {:induction false} NoMore(xs: seq<Addr>, ys: seq<Addr>)
    requires NoRepeats(xs) && forall a :: a in xs ==> a in ys
    ensures |xs| <= |ys|
  {
    if xs == [] {
    } else {
      assert xs[0] in ys;
      var i :| 0 <= i < |ys| && ys[i] == xs[0];
      var rest := ys[..i] + ys[i + 1..];
      var tail := xs[1..];
      forall a | a in tail ensures a in rest {
        var k :| 0 <= k < |tail| && tail[k] == a;
        assert xs[k + 1] == a;
        assert a in xs;
        var j :| 0 <= j < |ys| && ys[j] == a;
        assert j != i;
        if j < i { assert rest[j] == a; } else { assert rest[j - 1] == a; }
      }
      assert NoRepeats(tail);
      NoMore(tail, rest);
    }
  }

  /**
   Over every run, with crashes and restarts anywhere and whatever the clock does: on one publisher's word at most 20
   addresses, at most 4 of one /24 and no address twice are ever handed to the DHT; one process hands over at most 100.
   */
  lemma RationsHold(es: seq<Event>, pk: Pk, sub: string)
    ensures var w := Run(Empty(), es); var mine := HandedBy(w.handed, pk);
      && NoRepeats(mine) && |mine| <= 20 && |InNet(mine, sub)| <= 4
      && |w.handed| - w.born <= 100
  {
    RunBooks(Empty(), es);
    var w := Run(Empty(), es);
    hide Run, Empty;
    RationsOf(w, pk, sub);
  }

  lemma RationsOf(w: World, pk: Pk, sub: string)
    requires Books(w)
    ensures var mine := HandedBy(w.handed, pk);
      NoRepeats(mine) && |mine| <= PER_PUBLISHER && |InNet(mine, sub)| <= PER_SUBNET
        && |w.handed| - w.born <= PER_SESSION
  {
    var mine := HandedBy(w.handed, pk);
    HandedByDistinct(w.handed, pk);
    if mine != [] {
      HandedByIn(w.handed, pk, mine[0]);
      var st := w.file.publishers[pk];
      forall a | a in mine ensures a in st.seen { HandedByIn(w.handed, pk, a); }
      hide Accounted, Session, HandedBy;
      NoMore(mine, st.seen);
      InNetIn(mine, sub);
      InNetIn(st.seen, sub);
      NoMore(InNet(mine, sub), InNet(st.seen, sub));
    }
  }

  // ---- our own catalog ------------------------------------------------------------------------------------------

  /** advertisableNodes over the routing table, excluding what was adopted within the hour. */
  function Advertised(w: World, table: seq<Candidate>, allowPrivate: bool, now: Time, k: nat): seq<Addr>
    requires k <= |table|
  {
    if k == 0 then []
    else
      var out := Advertised(w, table, allowPrivate, now, k - 1);
      var c := table[k - 1];
      if |out| < ADVERTISE && c.Parsed? && c.v4 && (allowPrivate || !c.isPrivate) && !Recent(w.adopted, c.addr, now)
        && c.addr !in out
      then out + [c.addr] else out
  }

  predicate Recent(adopted: map<Addr, Time>, a: Addr, now: Time) {
    a in adopted && now < adopted[a] + HOUR
  }

  lemma {:induction false} AdvertisedOld(w: World, table: seq<Candidate>, allowPrivate: bool, now: Time, k: nat)
    requires k <= |table|
    ensures forall a :: a in Advertised(w, table, allowPrivate, now, k) ==> !Recent(w.adopted, a, now)
  {
    if k == 0 {
    } else {
      AdvertisedOld(w, table, allowPrivate, now, k - 1);
    }
  }

  /** With a monotone clock, no address handed over within the hour is in a catalog we publish, across restarts. */
  lemma NoLaundering(es: seq<Event>, table: seq<Candidate>, allowPrivate: bool, now: Time, i: nat)
    requires Monotone(0, es) && Run(Empty(), es).now <= now && i < |Run(Empty(), es).handed|
    requires now < Run(Empty(), es).handed[i].time + HOUR
    ensures Run(Empty(), es).handed[i].addr !in Advertised(Run(Empty(), es), table, allowPrivate, now, |table|)
  {
    var w := Run(Empty(), es);
    RunProvenance(Empty(), es);
    AdvertisedOld(w, table, allowPrivate, now, |table|);
    assert Remembered(w.handed[i], w.adopted, w.now);
  }

  /** A read of one usable entry, and what a fresh node makes of it. */
  function OneRead(rawPk: string, c: Candidate, at: Time): Event {
    Adopt(rawPk, [c], false, {}, false, at, Written(1))
  }

  lemma OneAdopted(rawPk: string, pk: Pk, c: Candidate, at: Time)
    requires CanonPk(rawPk) == Some(pk) && c.Parsed? && c.usable && c.v4 && !c.isPrivate
    ensures var w := Next(Empty(), OneRead(rawPk, c, at));
      w.handed == [Handed(pk, c.addr, at)] && w.file.adopted == map[c.addr := at]
  {
    hide CanonPk;
    var e := OneRead(rawPk, c, at);
    var d, r := Begin(Empty(), pk), ReadOf(Empty(), pk, e);
    var admitted := Admit(d.(inRead := {c.addr}), c.addr, at);
    assert Consider(d, c, r) == admitted;
    assert Walk(admitted, [c], r, 1) == admitted;
    assert Outcome(Empty(), pk, e) == admitted;
    assert admitted.admitted == [c.addr] && admitted.adopted == map[c.addr := at];
    assert [c.addr][..1] == [c.addr];
  }

  /**
   What a restart does to one adoption, exactly: it is forgotten when the clock reads before the adoption or a day or
   more past it, and then the address is advertised within its hour.
   */
  lemma ClockBackLaunders(rawPk: string, pk: Pk, c: Candidate, at: Time, back: Time, now: Time)
    requires CanonPk(rawPk) == Some(pk) && c.Parsed? && c.usable && c.v4 && !c.isPrivate && now < at + HOUR
    ensures var w := Run(Empty(), [OneRead(rawPk, c, at), Restart(back)]);
      && w.handed == [Handed(pk, c.addr, at)]
      && (c.addr in Advertised(w, [c], false, now, 1) <==> back < at || at + DAY <= back)
  {
    OneAdopted(rawPk, pk, c, at);
    var w := Next(Empty(), OneRead(rawPk, c, at));
    hide OneRead, CanonPk;
    var v := Next(w, Restart(back));
    assert c.addr in v.adopted <==> at <= back < at + DAY;
    var es := [OneRead(rawPk, c, at), Restart(back)];
    assert es[1..] == [Restart(back)];
    assert Run(w, [Restart(back)]) == Run(v, []) == v;
    assert Advertised(v, [c], false, now, 0) == [];
  }

  // ---- without a monotone clock ---------------------------------------------------------------------------------

  /** Whatever is read back, address a is remembered as adopted at t or later, in memory and on disk. */
  predicate Guarded(w: World, a: Addr, t: Time) {
    a in w.adopted && t <= w.adopted[a] && a in w.file.adopted && t <= w.file.adopted[a]
  }

  /** This read admits a. */
  predicate Admits(w: World, e: Event, a: Addr) {
    e.Adopt? && match CanonPk(e.rawPk) case None => false case Some(pk) => a in Outcome(w, pk, e).admitted
  }

  /** The clock readings that matter to a: of a restart, and of a read that adopts a again. */
  predicate ReadsLate(w: World, e: Event, a: Addr, t: Time)
    requires a in w.file.adopted
  {
    match e
    case Restart(at) => w.file.adopted[a] <= at < w.file.adopted[a] + DAY
    case Adopt(_, _, _, _, _, _, _) => Admits(w, e, a) ==> t <= e.at
  }

  /** Handing an address over puts it under guard. */
  lemma HandedIsGuarded(w: World, e: Event, i: nat)
    requires Books(w) && |w.handed| <= i < |Next(w, e).handed|
    ensures var h := Next(w, e).handed[i]; h.time == e.at && Guarded(Next(w, e), h.addr, h.time)
  {
    assert e.Adopt?;
    var pk := CanonPk(e.rawPk).value;
    OutcomeOk(w, pk, e);
    hide CanonPk, Outcome, StateOk;
    var d := Outcome(w, pk, e);
    assert Next(w, e).handed[i].addr in d.admitted;
  }

  /** What the transaction of a read leaves of the memory of a. */
  lemma OutcomeMark(w: World, pk: Pk, e: Event, a: Addr)
    requires FileOk(w) && e.Adopt? && a in w.adopted
    ensures var d := Outcome(w, pk, e);
      a in d.adopted && d.adopted[a] == if a in d.admitted then e.at else w.adopted[a]
  {
    hide StateOk;
    WalkMark(Begin(w, pk), e.nodes, ReadOf(w, pk, e), 0, a);
  }

  lemma {:induction false} WalkMark(d: Draft, nodes: seq<Candidate>, r: Read, k: nat, a: Addr)
    requires a in d.adopted && (a in d.admitted ==> d.adopted[a] == r.now)
    ensures var f := Walk(d, nodes, r, k);
      && a in f.adopted && d.admitted <= f.admitted
      && f.adopted[a] == if a in f.admitted then r.now else d.adopted[a]
    decreases |nodes| - k
  {
    if k >= |nodes| || k >= INSPECT || Spent(d) {
      assert Walk(d, nodes, r, k) == d;
    } else {
      var e := Consider(d, nodes[k], r);
      assert d.admitted <= e.admitted;
      assert a in e.adopted && e.adopted[a] == if a in e.admitted then r.now else d.adopted[a];
      hide Consider, Spent;
      WalkMark(e, nodes, r, k + 1, a);
    }
  }

  /**
   Exactly which steps keep a guarded address out of our catalog: restarts that read the clock no earlier than the
   adoption on file and less than a day past it, and reads that adopt it again no earlier than t.
   */
  lemma GuardExact(w: World, e: Event, a: Addr, t: Time)
    requires Books(w) && Guarded(w, a, t)
    ensures ReadsLate(w, e, a, t) ==> Guarded(Next(w, e), a, t)
    ensures ReadsLate(w, e, a, t) <==>
      forall table, allowPrivate, now: Time ::
        now < t + HOUR ==> a !in Advertised(Next(w, e), table, allowPrivate, now, |table|)
  {
    StepGuards(w, e, a, t);
    var v := Next(w, e);
    hide Next, Advertised, Books, Guarded, ReadsLate;
    if ReadsLate(w, e, a, t) {
      forall table, allowPrivate, now: Time | now < t + HOUR
        ensures a !in Advertised(v, table, allowPrivate, now, |table|)
      {
        GuardedHidden(v, a, t, table, allowPrivate, now);
      }
    } else {
      var now := if a in v.adopted then v.adopted[a] + HOUR else 0;
      var c := Parsed(a, true, true, false);
      AdvertisedAlone(v, c, now);
      assert a in Advertised(v, [c], false, now, |[c]|);
    }
  }

  lemma StepGuards(w: World, e: Event, a: Addr, t: Time)
    requires Books(w) && Guarded(w, a, t)
    ensures ReadsLate(w, e, a, t) ==> Guarded(Next(w, e), a, t)
    ensures !ReadsLate(w, e, a, t) ==> a !in Next(w, e).adopted || Next(w, e).adopted[a] < t
  {
    if e.Adopt? && CanonPk(e.rawPk).Some? {
      var pk := CanonPk(e.rawPk).value;
      OutcomeMark(w, pk, e, a);
      hide CanonPk, Outcome, Books;
    }
  }

  lemma GuardedHidden(w: World, a: Addr, t: Time, table: seq<Candidate>, allowPrivate: bool, now: Time)
    requires Guarded(w, a, t) && now < t + HOUR
    ensures a !in Advertised(w, table, allowPrivate, now, |table|)
  {
    AdvertisedOld(w, table, allowPrivate, now, |table|);
  }

  lemma AdvertisedAlone(w: World, c: Candidate, now: Time)
    requires c.Parsed? && c.v4 && !c.isPrivate && !Recent(w.adopted, c.addr, now)
    ensures c.addr in Advertised(w, [c], false, now, 1)
  {
    assert Advertised(w, [c], false, now, 0) == [];
  }

  /** Every step of the run reads the clock late enough for a. */
  predicate AllReadLate(w: World, es: seq<Event>, a: Addr, t: Time)
    decreases es
  {
    es != [] ==> a in w.file.adopted && ReadsLate(w, es[0], a, t) && AllReadLate(Next(w, es[0]), es[1..], a, t)
  }

  lemma {:induction false} RunGuards(w: World, es: seq<Event>, a: Addr, t: Time)
    requires Books(w) && Guarded(w, a, t) && AllReadLate(w, es, a, t)
    ensures Guarded(Run(w, es), a, t)
    decreases es
  {
    hide Books, Guarded, ReadsLate, Next;
    if es == [] {
      assert Run(w, es) == w;
    } else {
      GuardedOnFile(w, a, t);
      NextBooks(w, es[0]);
      GuardExact(w, es[0], a, t);
      RunGuards(Next(w, es[0]), es[1..], a, t);
    }
  }

  lemma GuardedOnFile(w: World, a: Addr, t: Time)
    requires Guarded(w, a, t)
    ensures a in w.file.adopted
  {}

  /**
   Whatever the clock did before, and however it jumps afterwards as long as it reads late enough for this address, an
   address handed over at t is in no catalog published at a reading below t plus an hour.
   */
  lemma NoLaunderingLate(before: seq<Event>, e: Event, after: seq<Event>, i: nat,
                         table: seq<Candidate>, allowPrivate: bool, now: Time)
    requires |Run(Empty(), before).handed| <= i < |Next(Run(Empty(), before), e).handed|
    requires var v := Next(Run(Empty(), before), e);
      AllReadLate(v, after, v.handed[i].addr, v.handed[i].time) && now < v.handed[i].time + HOUR
    ensures var v := Next(Run(Empty(), before), e);
      v.handed[i].addr !in Advertised(Run(v, after), table, allowPrivate, now, |table|)
  {
    RunBooks(Empty(), before);
    var w := Run(Empty(), before);
    var v := Next(w, e);
    var h := v.handed[i];
    hide Books, Guarded, Next, Advertised, Empty, Run;
    NextBooks(w, e);
    HandedIsGuarded(w, e, i);
    RunGuards(v, after, h.addr, h.time);
    GuardedHidden(Run(v, after), h.addr, h.time, table, allowPrivate, now);
  }
}
