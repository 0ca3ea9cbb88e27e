/**
 The same accounting as the node keeps it (src/node.ts:886-903, 1049-1093): fields updated in place by one
 transaction per read, and the file written before the first ping.
 */
module AdoptionNode {
  import opened Options
  import opened Adoption
  import opened AdoptionEffects

  class Node {
    var file: AdoptFile            // dht-adopt.json
    var adopted: map<Addr, Time>   // addr -> when we adopted it
    var session: nat
    ghost var handed: seq<Handed>
    ghost var born: nat
    ghost var now: Time

    ghost function View(): World
      reads this
    {
      World(file, adopted, session, handed, born, now)
    }

    constructor ()
      ensures View() == Empty() && Books(View()) && Provenance(View())
    {
      file, adopted, session := AdoptFile(map[], map[]), map[], 0;
      handed, born, now := [], 0, 0;
    }

    method AdoptNodes(nodes: seq<Candidate>, rawPk: string, allowPrivate: bool, inTable: set<Addr>, tableFull: bool,
                      at: Time, fate: Fate)
      returns (admitted: seq<Addr>)
      requires Books(View())
      modifies this
      ensures View() == Next(old(View()), Adopt(rawPk, nodes, allowPrivate, inTable, tableFull, at, fate))
        && Books(View())
      ensures old(Provenance(View()) && now <= at) ==> Provenance(View())
      ensures forall a :: a in admitted ==>
        Offered(nodes, |nodes|, a, allowPrivate) && a !in inTable && (tableFull ==> a !in old(adopted))
    {
      hide Books, Provenance, Settle, Outcome, CanonPk;
      ghost var w := View();
      ghost var e := Adopt(rawPk, nodes, allowPrivate, inTable, tableFull, at, fate);
      NextBooks(w, e);
      if Provenance(w) && w.now <= at { NextProvenance(w, e); }
      admitted := [];
      var pk := CanonPk(rawPk);
      if pk.None? { now := at; return; }
      admitted := AdoptTx(nodes, pk.value, rawPk, allowPrivate, inTable, tableFull, at, fate);
    }

    method AdoptTx(nodes: seq<Candidate>, pk: Pk, ghost rawPk: string, allowPrivate: bool, inTable: set<Addr>,
                   tableFull: bool, at: Time, fate: Fate)
      returns (admitted: seq<Addr>)
      modifies this
      ensures var e := Adopt(rawPk, nodes, allowPrivate, inTable, tableFull, at, fate);
        View() == Settle(old(View()), pk, Outcome(old(View()), pk, e), e)
          && admitted == Outcome(old(View()), pk, e).admitted
      ensures forall a :: a in admitted ==>
        Offered(nodes, |nodes|, a, allowPrivate) && a !in inTable && (tableFull ==> a !in old(adopted))
    {
      ghost var w := View();
      ghost var e := Adopt(rawPk, nodes, allowPrivate, inTable, tableFull, at, fate);
      var st := if pk in file.publishers then file.publishers[pk] else AdoptState(0, [], map[]);
      var seenBefore := set a | a in st.seen;
      st, admitted := AdmitAll(nodes, st, seenBefore, allowPrivate, inTable, tableFull, at);
      now := at;
      if admitted == [] { return; }
      if fate.Unwritten? { return; }
      file := AdoptFile(file.publishers[pk := st], adopted);
      ghost var k := if fate.pinged < |admitted| then fate.pinged else |admitted|;
      handed := handed + Pings(pk, admitted[..k], at);
    }

    /** The loop over the entries: filters, dedupe, budgets. */
    method AdmitAll(nodes: seq<Candidate>, st0: AdoptState, seenBefore: set<Addr>, allowPrivate: bool,
                    inTable: set<Addr>, tableFull: bool, at: Time)
      returns (st: AdoptState, admitted: seq<Addr>)
      modifies this`adopted, this`session
      ensures var r := Read(allowPrivate, inTable, seenBefore, tableFull, at);
        var d := Walk(Draft(st0, [], {}, old(session), old(adopted)), nodes, r, 0);
        st == d.st && admitted == d.admitted && session == d.session && adopted == d.adopted
      ensures forall a :: a in admitted ==>
        && Offered(nodes, |nodes|, a, allowPrivate)
        && a !in inTable
        && a !in seenBefore
        && (tableFull ==> a !in old(adopted))
    {
      st, admitted := st0, [];
      var inRead: set<Addr> := {};
      ghost var r := Read(allowPrivate, inTable, seenBefore, tableFull, at);
      ghost var goal := Walk(Draft(st0, [], {}, session, adopted), nodes, r, 0);
      PassSound(Draft(st0, [], {}, session, adopted), nodes, r);
      hide Offered;
      var limit := if |nodes| < INSPECT then |nodes| else INSPECT;
      var i := 0;
      while i < limit
        invariant 0 <= i <= limit
        invariant Walk(Draft(st, admitted, inRead, session, adopted), nodes, r, i) == goal
      {
        if |admitted| >= PER_READ { break; }
        if st.n >= PER_PUBLISHER || session >= PER_SESSION { break; }
        var c := nodes[i];
        i := i + 1;
        if c.Junk? || !c.usable || !c.v4 { continue; }
        if !allowPrivate && c.isPrivate { continue; }
        var s := c.addr;
        if s in inRead || s in inTable || s in seenBefore { continue; }
        inRead := inRead + {s};
        var count := if s.subnet in st.subnets then st.subnets[s.subnet] else 0;
        if count >= PER_SUBNET { continue; }
        if tableFull && s in adopted { continue; }
        st := AdoptState(st.n + 1, st.seen + [s], st.subnets[s.subnet := count + 1]);
        session := session + 1;
        adopted := adopted[s := at];
        admitted := admitted + [s];
      }
    }

    /** A new process: provenance is read back, the session starts over. */
    method Restart(at: Time)
      requires Books(View())
      modifies this
      ensures View() == Next(old(View()), Adoption.Restart(at)) && Books(View())
      ensures old(Provenance(View()) && now <= at) ==> Provenance(View())
    {
      NextBooks(View(), Adoption.Restart(at));
      if Provenance(View()) && now <= at { NextProvenance(View(), Adoption.Restart(at)); }
      hide Books, Provenance;
      adopted := map a | a in file.adopted && file.adopted[a] <= at && at - file.adopted[a] < DAY :: file.adopted[a];
      session := 0;
      born, now := |handed|, at;
    }

    /** The nodes our own catalog vouches for. */
    method PublishNodes(table: seq<Candidate>, allowPrivate: bool, at: Time) returns (nodes: seq<Addr>)
      ensures nodes == Advertised(View(), table, allowPrivate, at, |table|)
      ensures forall a :: a in nodes ==> Held(table, |table|, a, allowPrivate) && !Young(View(), a, at)
      ensures Provenance(View()) && now <= at ==>
        forall i :: 0 <= i < |handed| && at < handed[i].time + HOUR ==> handed[i].addr !in nodes
    {
      nodes := [];
      var k := 0;
      while k < |table|
        invariant 0 <= k <= |table| && nodes == Advertised(View(), table, allowPrivate, at, k)
      {
        var c := table[k];
        if |nodes| < ADVERTISE && c.Parsed? && c.v4 && (allowPrivate || !c.isPrivate) {
          if !(c.addr in adopted && at < adopted[c.addr] + HOUR) && c.addr !in nodes { nodes := nodes + [c.addr]; }
        }
        k := k + 1;
      }
      AdvertisedExact(View(), table, allowPrivate, at, |table|);
      AdvertisedOld(View(), table, allowPrivate, at, |table|);
      forall i | Provenance(View()) && now <= at && 0 <= i < |handed| && at < handed[i].time + HOUR
        ensures handed[i].addr !in nodes
      {
        assert Remembered(View().handed[i], adopted, now);
      }
    }
  }
}
