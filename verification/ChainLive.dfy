/**
 When a quorum read succeeds (src/chain.ts:176-307): the exact condition on the endpoints' answers for a snapshot
 and for a pinned read, told with sets of endpoints, and that healthy endpoints in either attempt are enough.
 */
module ChainLive {
  import opened Options
  import opened ChainQuorum
  import opened ChainSafety

  // ---- sets of endpoints -------------------------------------------------------------------------------------

  /** The endpoints that answered for the configured chain. */
  function Online(c: Config, r: Rpc): set<nat> {
    set i: nat | i < |r.probes| && r.probes[i].Up? && r.probes[i].chainId == c.chainId
  }

  function Head(r: Rpc, i: nat): nat { if i < |r.probes| && r.probes[i].Up? then r.probes[i].head else 0 }

  /** The median head of the live endpoints. */
  function MedianHead(c: Config, r: Rpc): nat {
    if LiveAll(c, r) == [] then 0 else MedianOf(LiveAll(c, r))
  }

  /** The live endpoints at most 64 blocks from the median, on either side. */
  function Close(c: Config, r: Rpc): set<nat> {
    set i | i in Online(c, r) && Head(r, i) <= MedianHead(c, r) + 64 && MedianHead(c, r) <= Head(r, i) + 64
  }

  function Reaching(r: Rpc, who: set<nat>, t: nat): set<nat> { set i | i in who && Head(r, i) >= t }

  function Reporting(r: Rpc, who: set<nat>, h: nat): set<nat> { set i | i in who && (i, h) in r.hashAt }

  /** The greatest block that minAgree of the close endpoints have. */
  predicate IsTarget(c: Config, r: Rpc, t: nat) {
    |Reaching(r, Close(c, r), t)| >= c.minAgree && |Reaching(r, Close(c, r), t + 1)| < c.minAgree
  }

  /** The endpoints whose report of the hash counts: close, able to have the block, and with an answer. */
  function Reporters(c: Config, r: Rpc, h: nat): set<nat> { Reporting(r, Reaching(r, Close(c, r), h), h) }

  predicate SameHash(r: Rpc, who: set<nat>, h: nat) {
    forall i, j ::
      && i in who
      && j in who
      && (i, h) in r.hashAt
      && (j, h) in r.hashAt
      ==> r.hashAt[(i, h)] == r.hashAt[(j, h)]
  }

  function Lagged(t: nat): nat { if t > 2 then t - 2 else 0 }

  // ---- the lists hold those sets -----------------------------------------------------------------------------

  function Elements(xs: seq<nat>): set<nat> { set x | x in xs }

  lemma {:induction false} DistinctCard(xs: seq<nat>)
    requires Distinct(xs)
    ensures |Elements(xs)| == |xs|
  {
    if xs == [] {
    } else {
      var rest := xs[1..];
      DistinctRest(xs);
      hide Distinct;
      DistinctCard(rest);
      assert xs == [xs[0]] + rest;
      assert Elements(xs) == {xs[0]} + Elements(rest);
    }
  }

  lemma DistinctRest(xs: seq<nat>)
    requires Distinct(xs) && xs != []
    ensures Distinct(xs[1..]) && xs[0] !in xs[1..]
  {
    assert forall k :: 0 <= k < |xs[1..]| ==> xs[1..][k] == xs[k + 1];
  }

  /** The list holds each endpoint of the set once, with its head. */
  predicate Lists(xs: seq<Live>, r: Rpc, who: set<nat>) {
    && |xs| == |who|
    && (forall k :: 0 <= k < |xs| ==> xs[k].i in who && xs[k].head == Head(r, xs[k].i))
    && forall i :: i in who ==> Live(i, Head(r, i)) in xs
  }

  lemma ListsIds(xs: seq<Live>, r: Rpc, who: set<nat>, n: nat)
    requires Rising(xs, n)
    requires forall k :: 0 <= k < |xs| ==> xs[k].i in who && xs[k].head == Head(r, xs[k].i)
    requires forall i :: i in who ==> Live(i, Head(r, i)) in xs
    ensures Lists(xs, r, who)
  {
    DistinctCard(LiveIndices(xs));
    forall i | i in who ensures i in Elements(LiveIndices(xs)) {
      var k :| 0 <= k < |xs| && xs[k] == Live(i, Head(r, i));
      assert LiveIndices(xs)[k] == i;
    }
    assert Elements(LiveIndices(xs)) == who;
  }

  lemma {:induction false} LiveComplete(r: Rpc, chainId: nat, n: nat, i: nat)
    requires i < n <= |r.probes| && OnChain(r.probes[i], chainId)
    ensures Live(i, Head(r, i)) in LiveOf(r.probes, chainId, n)
  {
    if i < n - 1 {
      LiveComplete(r, chainId, n - 1, i);
    } else {
    }
  }

  lemma LiveLists(c: Config, r: Rpc)
    ensures Lists(LiveAll(c, r), r, Online(c, r))
    ensures Rising(LiveAll(c, r), |r.probes|)
  {
    var live := LiveAll(c, r);
    LiveRising(r.probes, c.chainId, |r.probes|);
    hide LiveOf, Rising;
    forall k | 0 <= k < |live| ensures live[k].i in Online(c, r) && live[k].head == Head(r, live[k].i) {
      assert Probed(r.probes, c.chainId, live[k]);
    }
    forall i | i in Online(c, r) ensures Live(i, Head(r, i)) in live {
      LiveComplete(r, c.chainId, |r.probes|, i);
    }
    ListsIds(live, r, Online(c, r), |r.probes|);
  }

  lemma NearLists(c: Config, r: Rpc)
    requires LiveAll(c, r) != []
    ensures Lists(FreshAll(c, r), r, Close(c, r))
    ensures Rising(FreshAll(c, r), |r.probes|)
  {
    var live := LiveAll(c, r);
    var near := FreshAll(c, r);
    LiveLists(c, r);
    FreshRising(live, MedianOf(live), |live|, |r.probes|);
    hide LiveOf, FreshOf, Rising, MedianOf, Online;
    forall k | 0 <= k < |near| ensures near[k].i in Close(c, r) && near[k].head == Head(r, near[k].i) {
      assert Near(live, MedianOf(live), |live|, near[k]);
      assert near[k] in live[..|live|];
      var j :| 0 <= j < |live| && live[j] == near[k];
    }
    forall i | i in Close(c, r) ensures Live(i, Head(r, i)) in near {
      var j :| 0 <= j < |live| && live[j] == Live(i, Head(r, i));
      assert Gap(live[j].head, MedianOf(live)) <= MAX_HEAD_LAG;
    }
    ListsIds(near, r, Close(c, r), |r.probes|);
  }

  lemma {:induction false} AbleComplete(near: seq<Live>, t: nat, n: nat, k: nat)
    requires k < n <= |near| && near[k].head >= t
    ensures near[k] in AbleOf(near, t, n)
  {
    if k < n - 1 {
      AbleComplete(near, t, n - 1, k);
    } else {
    }
  }

  lemma AbleLists(c: Config, r: Rpc, t: nat)
    requires LiveAll(c, r) != []
    ensures var near := FreshAll(c, r); var able := AbleOf(near, t, |near|);
      && Rising(able, |r.probes|)
      && Lists(able, r, Reaching(r, Close(c, r), t))
      && |able| == Reach(near, t)
  {
    var near := FreshAll(c, r);
    NearLists(c, r);
    hide FreshAll, LiveAll, Close;
    AbleRising(near, t, |near|, |r.probes|);
    assert Heads(near)[..|near|] == Heads(near);
    var able := AbleOf(near, t, |near|);
    var who := Reaching(r, Close(c, r), t);
    forall k | 0 <= k < |able| ensures able[k].i in who && able[k].head == Head(r, able[k].i) {
      assert Able(near, t, |near|, able[k]);
      assert able[k] in near[..|near|];
      var j :| 0 <= j < |near| && near[j] == able[k];
    }
    forall i | i in who ensures Live(i, Head(r, i)) in able {
      var j :| 0 <= j < |near| && near[j] == Live(i, Head(r, i));
      AbleComplete(near, t, |near|, j);
    }
    hide Rising, AbleOf;
    ListsIds(able, r, who, |r.probes|);
  }

  // ---- the snapshot, exactly ------------------------------------------------------------------------------------

  lemma EnoughExact(c: Config, r: Rpc)
    requires c.minAgree >= 1
    ensures EnoughHeads(c, r) <==> |Close(c, r)| >= c.minAgree
    ensures |LiveAll(c, r)| == |Online(c, r)|
    ensures LiveAll(c, r) != [] ==> |FreshAll(c, r)| == |Close(c, r)|
  {
    LiveLists(c, r);
    if LiveAll(c, r) == [] {
      NoneClose(c, r);
    } else {
      NearLists(c, r);
      hide LiveAll, FreshAll, Close, Online;
      CloseOnline(c, r);
    }
  }

  lemma TargetIs(c: Config, r: Rpc)
    requires EnoughHeads(c, r)
    ensures IsTarget(c, r, TargetOf(FreshAll(c, r), c.minAgree))
  {
    HeightIsBest(c, r);
    var t := TargetOf(FreshAll(c, r), c.minAgree);
    hide LiveAll, FreshAll, Close, TargetOf, Reach;
    AbleLists(c, r, t);
    AbleLists(c, r, t + 1);
  }

  lemma NoneClose(c: Config, r: Rpc)
    requires |Online(c, r)| == 0
    ensures Close(c, r) == {}
  {
    assert Close(c, r) <= Online(c, r);
  }

  lemma CloseOnline(c: Config, r: Rpc)
    ensures |Close(c, r)| <= |Online(c, r)|
  {
    Subset(Close(c, r), Online(c, r));
  }

  lemma {:induction false} Subset(a: set<nat>, b: set<nat>)
    requires a <= b
    ensures |a| <= |b|
  {
    if a == {} {
    } else {
      var x :| x in a;
      Subset(a - {x}, b - {x});
    }
  }

  /** Only one block is the greatest that a quorum has. */
  lemma TargetUnique(c: Config, r: Rpc, t: nat, u: nat)
    requires IsTarget(c, r, t) && IsTarget(c, r, u)
    ensures t == u
  {
    if t < u {
      Subset(Reaching(r, Close(c, r), u), Reaching(r, Close(c, r), t + 1));
    } else if u < t {
      Subset(Reaching(r, Close(c, r), t), Reaching(r, Close(c, r), u + 1));
    }
  }

  lemma {:induction false} HashesComplete(able: seq<Live>, r: Rpc, h: nat, n: nat, k: nat)
    requires k < n <= |able| && (able[k].i, h) in r.hashAt
    ensures Seen(able[k].i, r.hashAt[(able[k].i, h)]) in HashesOf(able, r, h, n)
  {
    if k < n - 1 {
      HashesComplete(able, r, h, n - 1, k);
    } else {
    }
  }

  lemma {:induction false} HashesOnly(able: seq<Live>, r: Rpc, h: nat, n: nat, x: Seen)
    requires n <= |able| && x in HashesOf(able, r, h, n)
    ensures exists k :: 0 <= k < n && able[k].i == x.i
  {
    if n == 0 {
    } else if x in HashesOf(able, r, h, n - 1) {
      HashesOnly(able, r, h, n - 1, x);
    } else {
      assert able[n - 1].i == x.i;
    }
  }

  /** The reports are those of the reporters, once each. */
  lemma SeenExact(c: Config, r: Rpc)
    requires EnoughHeads(c, r)
    ensures var seen := SeenAll(c, r); var h := HeightOf(c, r);
      && Elements(Indices(seen)) == Reporters(c, r, h)
      && |seen| == |Reporters(c, r, h)|
      && forall k :: 0 <= k < |seen| ==> (seen[k].i, h) in r.hashAt && seen[k].hash == r.hashAt[(seen[k].i, h)]
  {
    var near := FreshAll(c, r);
    var h := HeightOf(c, r);
    var able := AbleOf(near, h, |near|);
    var seen := SeenAll(c, r);
    SeenFacts(c, r);
    AbleLists(c, r, h);
    assert seen == HashesOf(able, r, h, |able|);
    hide FreshAll, LiveAll, HeightOf, AbleOf, SeenAll, Close, Rising;
    DistinctCard(Indices(seen));
    forall k | 0 <= k < |seen|
      ensures (seen[k].i, h) in r.hashAt && seen[k].hash == r.hashAt[(seen[k].i, h)] && seen[k].i in Reporters(c, r, h)
    {
      assert SeenTrue(r, h, seen[k]);
      HashesOnly(able, r, h, |able|, seen[k]);
    }
    forall i | i in Reporters(c, r, h) ensures i in Elements(Indices(seen)) {
      var k :| 0 <= k < |able| && able[k] == Live(i, Head(r, i));
      HashesComplete(able, r, h, |able|, k);
      var j :| 0 <= j < |seen| && seen[j] == Seen(i, r.hashAt[(i, h)]);
      assert Indices(seen)[j] == i;
    }
    assert Elements(Indices(seen)) == Reporters(c, r, h);
  }

  /** Too few endpoints close to the median: no snapshot. */
  lemma TakeTooFew(c: Config, r: Rpc)
    requires c.minAgree >= 1 && |Close(c, r)| < c.minAgree
    ensures Take(c, r) ==
      Err(AllRpcsFailed(if |Online(c, r)| < c.minAgree then |Online(c, r)| else |Close(c, r)|, c.minAgree))
  {
    EnoughExact(c, r);
    hide LiveAll, FreshAll, Close, Online;
  }

  /**
   A snapshot is taken exactly when at least minAgree endpoints report the hash and no two reports differ.  The block
   is two below the greatest one that minAgree of the endpoints near the median have.
   */
  lemma TakeExact(c: Config, r: Rpc, t: nat)
    requires c.minAgree >= 1 && IsTarget(c, r, t)
    ensures var who := Reporters(c, r, Lagged(t));
      && (Take(c, r).Ok? <==> |who| >= c.minAgree && SameHash(r, who, Lagged(t)))
      && (|who| < c.minAgree ==> Take(c, r) == Err(AllRpcsFailed(|who|, c.minAgree)))
      && (|who| >= c.minAgree && !SameHash(r, who, Lagged(t)) ==> Take(c, r) == Err(RpcDisagreement))
    ensures Take(c, r).Ok? ==> var s := Take(c, r).value;
      && s.height == Lagged(t)
      && Distinct(s.endpoints)
      && Elements(s.endpoints) == Reporters(c, r, s.height)
      && forall i :: i in s.endpoints ==> (i, s.height) in r.hashAt && r.hashAt[(i, s.height)] == s.hash
  {
    Subset(Reaching(r, Close(c, r), t), Close(c, r));
    EnoughExact(c, r);
    TargetIs(c, r);
    TargetUnique(c, r, t, TargetOf(FreshAll(c, r), c.minAgree));
    assert HeightOf(c, r) == Lagged(t);
    SeenExact(c, r);
    SeenFacts(c, r);
    hide LiveAll, FreshAll, Close, Online, HeightOf, SeenAll, TargetOf, Reporters, IsTarget;
    var h := Lagged(t);
    var seen := SeenAll(c, r);
    var who := Reporters(c, r, h);
    forall k | 0 <= k < |seen| ensures seen[k].i in who { assert Indices(seen)[k] == seen[k].i; }
    if SameHash(r, who, h) {
      assert forall k :: 0 <= k < |seen| ==> seen[k].hash == seen[0].hash;
    } else if forall k :: 0 <= k < |seen| ==> seen[k].hash == seen[0].hash {
      SeenSame(r, seen, who, h);
      assert false;
    }
  }

  lemma SeenSame(r: Rpc, seen: seq<Seen>, who: set<nat>, h: nat)
    requires Elements(Indices(seen)) == who
    requires forall k :: 0 <= k < |seen| ==> (seen[k].i, h) in r.hashAt && seen[k].hash == r.hashAt[(seen[k].i, h)]
    requires forall k :: 0 <= k < |seen| ==> seen[k].hash == seen[0].hash
    ensures SameHash(r, who, h)
  {
    forall i | i in who ensures (i, h) in r.hashAt && r.hashAt[(i, h)] == seen[0].hash {
      assert i in Indices(seen);
      var k :| 0 <= k < |seen| && Indices(seen)[k] == i;
    }
  }

  // ---- a pinned read, exactly -------------------------------------------------------------------------------------

  predicate Decodes(call: Call, v: Value) {
    match call
    case OwnerOf(_) => v.OwnerVal?
    case Resolve(_, _) => v.RecordVal?
  }

  predicate Answers(r: Rpc, i: nat, call: Call, hash: Hash) {
    (i, call, hash) in r.call && Decodes(call, r.call[(i, call, hash)])
  }

  /** The endpoints of the snapshot with an answer that decodes. */
  function Answering(s: Snapshot, r: Rpc, call: Call): set<nat> {
    set i | i in s.endpoints && Answers(r, i, call, s.hash)
  }

  predicate SameValue(s: Snapshot, r: Rpc, call: Call) {
    forall i, j ::
      && i in Answering(s, r, call)
      && j in Answering(s, r, call)
      ==> r.call[(i, call, s.hash)] == r.call[(j, call, s.hash)]
  }

  lemma {:induction false} AnswersComplete(s: Snapshot, r: Rpc, call: Call, n: nat, k: nat)
    requires k < n <= |s.endpoints| && Answers(r, s.endpoints[k], call, s.hash)
    ensures Answer(s.endpoints[k], r.call[(s.endpoints[k], call, s.hash)]) in AnswersOf(s, r, call, n)
  {
    if k < n - 1 {
      AnswersComplete(s, r, call, n - 1, k);
    } else {
    }
  }

  function Answerers(a: seq<Answer>): (e: seq<nat>)
    ensures |e| == |a| && forall k :: 0 <= k < |a| ==> e[k] == a[k].i
  {
    seq(|a|, k requires 0 <= k < |a| => a[k].i)
  }

  lemma AnswersSound(s: Snapshot, r: Rpc, call: Call)
    requires Distinct(s.endpoints)
    ensures var a := AnswersOf(s, r, call, |s.endpoints|);
      && Distinct(Answerers(a))
      && forall k :: 0 <= k < |a| ==> a[k].i in Answering(s, r, call) && a[k].value == r.call[(a[k].i, call, s.hash)]
  {
    var a := AnswersOf(s, r, call, |s.endpoints|);
    AnswersFrom(s, r, call, |s.endpoints|);
    AnswersShaped(s, r, call, |s.endpoints|);
    assert s.endpoints[..|s.endpoints|] == s.endpoints;
    hide AnswersOf;
    forall k | 0 <= k < |a|
      ensures a[k].i in Answering(s, r, call) && a[k].value == r.call[(a[k].i, call, s.hash)]
    {
      assert AnswerTrue(r, call, s.hash, a[k]);
    }
  }

  lemma AnswersExact(s: Snapshot, r: Rpc, call: Call)
    requires Distinct(s.endpoints)
    ensures var a := AnswersOf(s, r, call, |s.endpoints|);
      && |a| == |Answering(s, r, call)|
      && Elements(Answerers(a)) == Answering(s, r, call)
      && forall k :: 0 <= k < |a| ==> a[k].i in Answering(s, r, call) && a[k].value == r.call[(a[k].i, call, s.hash)]
  {
    var a := AnswersOf(s, r, call, |s.endpoints|);
    AnswersSound(s, r, call);
    hide AnswersOf, Distinct;
    DistinctCard(Answerers(a));
    forall i | i in Answering(s, r, call) ensures i in Elements(Answerers(a)) {
      var k :| 0 <= k < |s.endpoints| && s.endpoints[k] == i;
      AnswersComplete(s, r, call, |s.endpoints|, k);
      var j :| 0 <= j < |a| && a[j] == Answer(i, r.call[(i, call, s.hash)]);
      assert Answerers(a)[j] == i;
    }
    assert Elements(Answerers(a)) == Answering(s, r, call);
  }

  /** A pinned read succeeds exactly when at least minAgree endpoints of the snapshot answer, all the same. */
  lemma ReadExact(c: Config, s: Snapshot, r: Rpc, call: Call)
    requires c.minAgree >= 1 && Distinct(s.endpoints)
    ensures var who := Answering(s, r, call);
      && (ReadAll(c, s, r, call).Ok? <==> |who| >= c.minAgree && SameValue(s, r, call))
      && (|who| < c.minAgree ==> ReadAll(c, s, r, call) == Err(AllRpcsFailed(|who|, c.minAgree)))
      && (|who| >= c.minAgree && !SameValue(s, r, call) ==> ReadAll(c, s, r, call) == Err(RpcDisagreement))
      && (ReadAll(c, s, r, call).Ok? ==>
           forall i :: i in who ==> r.call[(i, call, s.hash)] == ReadAll(c, s, r, call).value)
  {
    var a := AnswersOf(s, r, call, |s.endpoints|);
    AnswersExact(s, r, call);
    hide AnswersOf, Answering, Distinct, Elements, Answerers;
    if |a| < c.minAgree {
    } else if k :| 0 <= k < |a| && a[k].value != a[0].value {
      assert a[k].i in Answering(s, r, call) && a[0].i in Answering(s, r, call);
    } else {
      AnswersSame(s, r, call, a);
      assert ReadAll(c, s, r, call) == Ok(a[0].value);
    }
  }

  lemma AnswersSame(s: Snapshot, r: Rpc, call: Call, a: seq<Answer>)
    requires Elements(Answerers(a)) == Answering(s, r, call)
    requires forall k :: 0 <= k < |a| ==>
      a[k].i in Answering(s, r, call) && a[k].value == r.call[(a[k].i, call, s.hash)]
    requires forall k :: 0 <= k < |a| ==> a[k].value == a[0].value
    ensures forall i :: i in Answering(s, r, call) ==> |a| > 0 && r.call[(i, call, s.hash)] == a[0].value
    ensures SameValue(s, r, call)
  {
    forall i | i in Answering(s, r, call) ensures |a| > 0 && r.call[(i, call, s.hash)] == a[0].value {
      assert i in Answerers(a);
      var k :| 0 <= k < |a| && Answerers(a)[k] == i;
    }
  }

  // ---- healthy endpoints are enough --------------------------------------------------------------------------------

  predicate Asked(call: Call, pk: string, name: string) {
    call == OwnerOf(pk) || (call.Resolve? && call.name == name)
  }

  /** At least minAgree endpoints are on the chain, their heads are within 64 blocks, and each serves what it has. */
  ghost predicate Healthy(c: Config, ch: Chain, r: Rpc, pk: string, name: string) {
    && |Online(c, r)| >= c.minAgree
    && (forall i, j :: i in Online(c, r) && j in Online(c, r) ==> Head(r, i) <= Head(r, j) + 64)
    && forall i :: i in Online(c, r) ==> Serves(ch, r, i, pk, name)
  }

  /** An honest endpoint with the hash of every block up to its head, and the answers at the canonical ones. */
  ghost predicate Serves(ch: Chain, r: Rpc, i: nat, pk: string, name: string) {
    && Honest(ch, r, i)
    && (forall h: nat :: h <= Head(r, i) ==> (i, h) in r.hashAt)
    && forall h: nat, call, hash :: Asked(call, pk, name) && Canonical(ch, h, hash) ==> Answers(r, i, call, hash)
  }

  /** No less than half the heads are at or below the lower middle one, and more than half are at or above it. */
  predicate LowerMiddle(heads: seq<nat>, x: nat) {
    x in heads && 2 * CountTo(true, heads, x) >= |heads| && 2 * CountTo(false, heads, x) > |heads|
  }

  predicate UpperMiddle(heads: seq<nat>, x: nat) {
    x in heads && 2 * CountTo(true, heads, x) > |heads| && 2 * CountTo(false, heads, x) >= |heads|
  }

  /** The median is the mean of the two middle heads, which for an odd number are one, rounded down. */
  lemma MedianExact(live: seq<Live>) returns (lo: nat, hi: nat)
    requires live != []
    ensures LowerMiddle(Heads(live), lo) && UpperMiddle(Heads(live), hi) && lo <= hi
    ensures |live| % 2 == 1 ==> lo == hi
    ensures MedianOf(live) == (lo + hi) / 2
  {
    hide CountTo;
    var heads := Heads(live);
    var asc := Sort(true, heads);
    SortSorts(true, heads);
    var n := |asc|;
    var a := if n % 2 == 1 then (n - 1) / 2 else n / 2 - 1;
    var b := n / 2;
    lo, hi := asc[a], asc[b];
    assert lo <= hi by { if a < b { assert Before(true, asc[a], asc[b]); } }
    Middle(heads, asc, a);
    Middle(heads, asc, b);
  }

  lemma Middle(heads: seq<nat>, asc: seq<nat>, a: nat)
    requires asc == Sort(true, heads) && a < |heads|
    ensures |asc| == |heads| && asc[a] in heads
    ensures CountTo(true, heads, asc[a]) > a && CountTo(false, heads, asc[a]) >= |heads| - a
  {
    SortSorts(true, heads);
    KthCounts(true, asc, a, asc[a]);
    KthCountsBack(asc, a, asc[a]);
    CountSort(true, true, heads, asc[a]);
    CountSort(false, true, heads, asc[a]);
    hide Sort, CountTo, Ordered;
    assert asc[a] in multiset(asc);
  }

  /** Heads that close together all survive the filter. */
  lemma AllClose(c: Config, r: Rpc)
    requires forall i, j :: i in Online(c, r) && j in Online(c, r) ==> Head(r, i) <= Head(r, j) + 64
    ensures Close(c, r) == Online(c, r)
  {
    var live := LiveAll(c, r);
    LiveLists(c, r);
    if live != [] {
      var lo, hi := MedianExact(live);
      hide LiveOf, MedianOf, Online;
      var a :| 0 <= a < |live| && Heads(live)[a] == lo;
      var b :| 0 <= b < |live| && Heads(live)[b] == hi;
      assert live[a].i in Online(c, r) && live[b].i in Online(c, r);
      forall i | i in Online(c, r) ensures i in Close(c, r) {
        assert Head(r, i) <= Head(r, live[a].i) + 64 && Head(r, live[b].i) <= Head(r, i) + 64;
      }
    } else {
      assert Online(c, r) == {};
    }
  }

  lemma SnapshotLive(c: Config, ch: Chain, r: Rpc, pk: string, name: string)
    requires c.minAgree >= 1 && Healthy(c, ch, r, pk, name)
    ensures Take(c, r).Ok? && var s := Take(c, r).value;
      && Canonical(ch, s.height, s.hash)
      && Distinct(s.endpoints)
      && |s.endpoints| >= c.minAgree
      && forall i :: i in s.endpoints ==> Serves(ch, r, i, pk, name)
  {
    AllClose(c, r);
    EnoughExact(c, r);
    TargetIs(c, r);
    var t := TargetOf(FreshAll(c, r), c.minAgree);
    var h := Lagged(t);
    hide LiveAll, FreshAll, TargetOf, Online, Honest, Canonical, Take;
    var who := Reaching(r, Close(c, r), h);
    Subset(Reaching(r, Close(c, r), t), who);
    forall i | i in who ensures (i, h) in r.hashAt && Canonical(ch, h, r.hashAt[(i, h)]) {
      assert Serves(ch, r, i, pk, name);
      HonestHash(ch, r, i, h);
    }
    assert Reporters(c, r, h) == who;
    SameCanonical(ch, r, who, h);
    TakeExact(c, r, t);
    var s := Take(c, r).value;
    DistinctCard(s.endpoints);
    assert s.endpoints[0] in Elements(s.endpoints);
    forall i | i in s.endpoints ensures i in who { assert i in Elements(s.endpoints); }
  }

  lemma HonestHash(ch: Chain, r: Rpc, i: nat, h: nat)
    requires Honest(ch, r, i) && (i, h) in r.hashAt
    ensures Canonical(ch, h, r.hashAt[(i, h)])
  {}

  lemma SameCanonical(ch: Chain, r: Rpc, who: set<nat>, h: nat)
    requires forall i :: i in who ==> (i, h) in r.hashAt && Canonical(ch, h, r.hashAt[(i, h)])
    ensures SameHash(r, who, h)
  {}

  lemma ReadLive(c: Config, ch: Chain, s: Snapshot, r: Rpc, call: Call, pk: string, name: string)
    requires c.minAgree >= 1 && Canonical(ch, s.height, s.hash) && Distinct(s.endpoints)
      && |s.endpoints| >= c.minAgree
    requires Asked(call, pk, name) && forall i :: i in s.endpoints ==> Serves(ch, r, i, pk, name)
    ensures ReadAll(c, s, r, call).Ok? && True(ch, call, s.hash, ReadAll(c, s, r, call).value)
  {
    ReadExact(c, s, r, call);
    DistinctCard(s.endpoints);
    hide ReadAll, Distinct;
    forall i | i in s.endpoints
      ensures Answers(r, i, call, s.hash) && True(ch, call, s.hash, r.call[(i, call, s.hash)])
    {
      assert Serves(ch, r, i, pk, name);
    }
    assert Answering(s, r, call) == Elements(s.endpoints);
    assert s.endpoints[0] in Answering(s, r, call);
  }

  /** Healthy endpoints answer, and the answer is the registry's own at a canonical block. */
  lemma AttemptLive(c: Config, ch: Chain, r: Rpc, pk: string, name: string)
    requires c.minAgree >= 1 && Healthy(c, ch, r, pk, name)
    ensures Attempt(c, r, pk, name).Ok? && TrueAnswer(ch, pk, name, Attempt(c, r, pk, name).value)
  {
    SnapshotLive(c, ch, r, pk, name);
    var s := Take(c, r).value;
    ReadLive(c, ch, s, r, OwnerOf(pk), pk, name);
    ReadShaped(c, s, r, OwnerOf(pk));
    OwnerFromSays(ReadAll(c, s, r, OwnerOf(pk)).value);
    hide Take, ReadAll, Serves, Healthy, OwnerSays, OwnerFrom;
    var o := OwnerFrom(ReadAll(c, s, r, OwnerOf(pk)).value);
    if o.Some? {
      ReadLive(c, ch, s, r, Resolve(o.value.addr, name), pk, name);
      ReadShaped(c, s, r, Resolve(o.value.addr, name));
    }
  }

  /**
   A verified read succeeds when the endpoints are healthy in the first attempt, whatever the second would meet, and
   also when they are healthy only in the second; it fails exactly when both attempts do.
   */
  lemma VerifiedLive(c: Config, ch: Chain, first: Rpc, second: Rpc, pk: string, name: string)
    requires c.minAgree >= 1
    ensures Healthy(c, ch, first, pk, name) ==>
      var v := VerifiedRead(c, first, second, pk, name); v.Ok? && TrueAnswer(ch, pk, name, v.value)
    ensures Healthy(c, ch, second, pk, name) ==> VerifiedRead(c, first, second, pk, name).Ok?
    ensures VerifiedRead(c, first, second, pk, name).Err? <==>
      Attempt(c, first, pk, name).Err? && Attempt(c, second, pk, name).Err?
  {
    if Healthy(c, ch, first, pk, name) { AttemptLive(c, ch, first, pk, name); }
    if Healthy(c, ch, second, pk, name) { AttemptLive(c, ch, second, pk, name); }
    hide Attempt, Healthy, TrueAnswer;
  }
}
