/**
 What a quorum read guarantees (src/chain.ts:185-307) when fewer than minAgree endpoints are faulty, and how good
 the snapshot height is.
 */
module ChainSafety {
  import opened Options
  import opened ChainQuorum

  // ---- who answered -----------------------------------------------------------------------------------------

  predicate Distinct(xs: seq<nat>) {
    forall i, j :: 0 <= i < j < |xs| ==> xs[i] != xs[j]
  }

  /** Strictly increasing endpoint numbers, below n. */
  predicate Rising(xs: seq<Live>, n: nat) {
    (forall k :: 0 <= k < |xs| ==> xs[k].i < n) && forall i, j :: 0 <= i < j < |xs| ==> xs[i].i < xs[j].i
  }

  lemma RisingAdd(xs: seq<Live>, x: Live, n: nat)
    requires Rising(xs, x.i) && x.i < n
    ensures Rising(xs + [x], n)
  {
    var ys := xs + [x];
    assert forall k :: 0 <= k < |xs| ==> ys[k] == xs[k];
  }

  lemma RisingMore(xs: seq<Live>, m: nat, n: nat)
    requires Rising(xs, m) && m <= n
    ensures Rising(xs, n)
  {}

  predicate Probed(probes: seq<Probe>, chainId: nat, x: Live) {
    x.i < |probes| && probes[x.i] == Up(chainId, x.head)
  }

  lemma {:induction false} LiveRising(probes: seq<Probe>, chainId: nat, n: nat)
    requires n <= |probes|
    ensures var l := LiveOf(probes, chainId, n);
      Rising(l, n) && forall k :: 0 <= k < |l| ==> Probed(probes, chainId, l[k])
  {
    hide Rising;
    if n == 0 {
      assert LiveOf(probes, chainId, n) == [] && Rising([], n) by { NoneRising(n); }
    } else {
      LiveRising(probes, chainId, n - 1);
      var l := LiveOf(probes, chainId, n - 1);
      if OnChain(probes[n - 1], chainId) {
        RisingAdd(l, Live(n - 1, probes[n - 1].head), n);
      } else {
        assert l + [] == l;
        RisingMore(l, n - 1, n);
      }
    }
  }

  lemma NoneRising(n: nat)
    ensures Rising([], n)
  {}

  predicate Near(live: seq<Live>, median: nat, n: nat, x: Live)
    requires n <= |live|
  {
    x in live[..n] && Gap(x.head, median) <= MAX_HEAD_LAG
  }

  /** An entry of the first n that comes before the n-th in a rising sequence. */
  lemma BeforeLast(live: seq<Live>, n: nat, f: seq<Live>, bound: nat)
    requires n < |live| && Rising(live, bound) && Rising(f, bound) && forall k :: 0 <= k < |f| ==> f[k] in live[..n]
    ensures Rising(f, live[n].i)
  {
    forall k | 0 <= k < |f| ensures f[k].i < live[n].i {
      assert f[k] in live[..n];
      var j :| 0 <= j < |live[..n]| && live[..n][j] == f[k];
      assert live[j] == f[k];
    }
  }

  lemma {:induction false} FreshRising(live: seq<Live>, median: nat, n: nat, bound: nat)
    requires n <= |live| && Rising(live, bound)
    ensures var f := FreshOf(live, median, n);
      && Rising(f, bound)
      && (forall k :: 0 <= k < |f| ==> Near(live, median, n, f[k]))
      && (forall k :: 0 <= k < n && Gap(live[k].head, median) <= MAX_HEAD_LAG ==> live[k] in f)
  {
    if n == 0 {
      assert FreshOf(live, median, n) == [];
    } else {
      FreshRising(live, median, n - 1, bound);
      assert live[..n] == live[..n - 1] + [live[n - 1]];
      var f := FreshOf(live, median, n - 1);
      var x := live[n - 1];
      assert x.i < bound;
      BeforeLast(live, n - 1, f, bound);
      hide Rising;
      if Gap(x.head, median) <= MAX_HEAD_LAG {
        RisingAdd(f, x, bound);
      } else {
        assert f + [] == f;
      }
    }
  }

  lemma {:induction false} AbleCount(near: seq<Live>, t: nat, n: nat)
    requires n <= |near|
    ensures |AbleOf(near, t, n)| == CountTo(false, Heads(near)[..n], t)
  {
    if n == 0 {
      assert Heads(near)[..0] == [];
    } else {
      AbleCount(near, t, n - 1);
      CountSplit(false, Heads(near)[..n], n - 1, t);
      assert Heads(near)[..n][..n - 1] == Heads(near)[..n - 1];
      assert Heads(near)[..n][n - 1..] == [near[n - 1].head];
    }
  }

  predicate Able(near: seq<Live>, t: nat, n: nat, x: Live)
    requires n <= |near|
  {
    x in near[..n] && x.head >= t
  }

  lemma {:induction false} AbleRising(near: seq<Live>, t: nat, n: nat, bound: nat)
    requires n <= |near| && Rising(near, bound)
    ensures var a := AbleOf(near, t, n);
      && Rising(a, bound)
      && (forall k :: 0 <= k < |a| ==> Able(near, t, n, a[k]))
      && |a| == CountTo(false, Heads(near)[..n], t)
  {
    AbleCount(near, t, n);
    hide CountTo;
    if n == 0 {
      assert AbleOf(near, t, n) == [];
    } else {
      AbleRising(near, t, n - 1, bound);
      assert near[..n] == near[..n - 1] + [near[n - 1]];
      var a := AbleOf(near, t, n - 1);
      var x := near[n - 1];
      assert x.i < bound;
      BeforeLast(near, n - 1, a, bound);
      hide Rising;
      if x.head >= t {
        RisingAdd(a, x, bound);
      } else {
        assert a + [] == a;
      }
    }
  }

  predicate SeenTrue(r: Rpc, height: nat, x: Seen) {
    (x.i, height) in r.hashAt && r.hashAt[(x.i, height)] == x.hash
  }

  predicate AnswerTrue(r: Rpc, call: Call, hash: Hash, x: Answer) {
    (x.i, call, hash) in r.call && r.call[(x.i, call, hash)] == x.value
  }

  /** Reports of strictly increasing endpoints, none above `last`. */
  predicate SeenRising(s: seq<Seen>, last: int) {
    (forall k :: 0 <= k < |s| ==> s[k].i <= last) && forall i, j :: 0 <= i < j < |s| ==> s[i].i < s[j].i
  }

  lemma {:induction false} HashesFrom(able: seq<Live>, r: Rpc, height: nat, n: nat, bound: nat)
    requires n <= |able| && Rising(able, bound)
    ensures SeenRising(HashesOf(able, r, height, n), if n == 0 then -1 else able[n - 1].i)
    ensures forall k :: 0 <= k < |HashesOf(able, r, height, n)| ==> SeenTrue(r, height, HashesOf(able, r, height, n)[k])
  {
    if n == 0 {
    } else {
      HashesFrom(able, r, height, n - 1, bound);
      var s := HashesOf(able, r, height, n - 1);
      assert n > 1 ==> able[n - 2].i < able[n - 1].i;
      assert forall k :: 0 <= k < |s| ==> s[k].i < able[n - 1].i && SeenTrue(r, height, s[k]);
    }
  }

  predicate AnswersIn(a: seq<Answer>, endpoints: seq<nat>) {
    (forall k :: 0 <= k < |a| ==> a[k].i in endpoints) && forall i, j :: 0 <= i < j < |a| ==> a[i].i != a[j].i
  }

  lemma {:induction false} AnswersFrom(s: Snapshot, r: Rpc, call: Call, n: nat)
    requires n <= |s.endpoints| && Distinct(s.endpoints)
    ensures AnswersIn(AnswersOf(s, r, call, n), s.endpoints[..n])
    ensures forall k :: 0 <= k < |AnswersOf(s, r, call, n)| ==> AnswerTrue(r, call, s.hash, AnswersOf(s, r, call, n)[k])
  {
    if n == 0 {
    } else {
      AnswersFrom(s, r, call, n - 1);
      var a := AnswersOf(s, r, call, n - 1);
      assert s.endpoints[..n] == s.endpoints[..n - 1] + [s.endpoints[n - 1]];
      assert s.endpoints[n - 1] !in s.endpoints[..n - 1];
      assert forall k :: 0 <= k < |a| ==> a[k].i in s.endpoints[..n - 1] && AnswerTrue(r, call, s.hash, a[k]);
    }
  }

  /** More distinct endpoints than faulty ones: one of them is honest. */
  lemma {:induction false} OneHonest(xs: seq<nat>, faulty: set<nat>) returns (k: nat)
    requires Distinct(xs) && |xs| > |faulty|
    ensures k < |xs| && xs[k] !in faulty
  {
    if xs[0] !in faulty {
      k := 0;
    } else {
      var rest := xs[1..];
      assert forall i :: 0 <= i < |rest| ==> rest[i] == xs[i + 1];
      k := OneHonest(rest, faulty - {xs[0]});
      assert rest[k] != xs[0];
      k := k + 1;
    }
  }

  // ---- the chain behind the honest endpoints --------------------------------------------------------------------

  /** The canonical hash of every height there is, and what the registry answers at every block. */
  datatype Chain = Chain(canonical: imap<nat, Hash>, truth: imap<(Call, Hash), Value>)

  ghost predicate Canonical(ch: Chain, height: nat, hash: Hash) {
    height in ch.canonical && ch.canonical[height] == hash
  }

  ghost predicate True(ch: Chain, call: Call, hash: Hash, v: Value) {
    (call, hash) in ch.truth && ch.truth[(call, hash)] == v
  }

  /** An honest endpoint serves that chain or fails. */
  ghost predicate Honest(ch: Chain, r: Rpc, i: nat) {
    && (forall h :: (i, h) in r.hashAt ==> Canonical(ch, h, r.hashAt[(i, h)]))
    && (forall call, h, hash :: (i, call, hash) in r.call && Canonical(ch, h, hash) ==>
         True(ch, call, hash, r.call[(i, call, hash)]))
  }

  ghost predicate FewFaulty(c: Config, ch: Chain, r: Rpc, faulty: set<nat>) {
    |faulty| < c.minAgree && forall i :: i !in faulty ==> Honest(ch, r, i)
  }

  /** Every reported hash is its endpoint's own, and no endpoint reports twice. */
  lemma SeenFacts(c: Config, r: Rpc)
    requires EnoughHeads(c, r)
    ensures Distinct(Indices(SeenAll(c, r)))
    ensures forall k :: 0 <= k < |SeenAll(c, r)| ==> SeenTrue(r, HeightOf(c, r), SeenAll(c, r)[k])
  {
    hide FreshAll, LiveAll, HeightOf, AbleOf, HashesOf;
    var near := FreshAll(c, r);
    FreshFacts(c, r);
    AbleRising(near, HeightOf(c, r), |near|, |r.probes|);
    var able := AbleOf(near, HeightOf(c, r), |near|);
    HashesFrom(able, r, HeightOf(c, r), |able|, |r.probes|);
  }

  /** A snapshot is canonical. */
  lemma SnapshotCanonical(c: Config, ch: Chain, r: Rpc, faulty: set<nat>)
    requires c.minAgree >= 1 && FewFaulty(c, ch, r, faulty)
    ensures Take(c, r).Ok? ==>
      var s := Take(c, r).value; Canonical(ch, s.height, s.hash) && Distinct(s.endpoints) && |s.endpoints| >= c.minAgree
  {
    hide SeenAll, HeightOf, LiveAll, FreshAll;
    if Take(c, r).Ok? {
      SeenFacts(c, r);
      var seen := SeenAll(c, r);
      var k := OneHonest(Indices(seen), faulty);
      assert Honest(ch, r, seen[k].i);
      assert seen[k].hash == seen[0].hash;
    }
  }

  /** A pinned read of a canonical snapshot is the truth at that block. */
  lemma ReadTrue(c: Config, ch: Chain, s: Snapshot, r: Rpc, call: Call, faulty: set<nat>)
    requires c.minAgree >= 1 && FewFaulty(c, ch, r, faulty) && Distinct(s.endpoints) && Canonical(ch, s.height, s.hash)
    ensures ReadAll(c, s, r, call).Ok? ==> True(ch, call, s.hash, ReadAll(c, s, r, call).value)
  {
    if ReadAll(c, s, r, call).Ok? {
      var a := AnswersOf(s, r, call, |s.endpoints|);
      AnswersFrom(s, r, call, |s.endpoints|);
      hide AnswersOf;
      var who := seq(|a|, k requires 0 <= k < |a| => a[k].i);
      var k := OneHonest(who, faulty);
      assert Honest(ch, r, a[k].i);
      assert a[k].value == a[0].value;
    }
  }

  /** The zero address of an account that never bound: "0x" and forty zeros. */
  predicate ZeroAddress(a: Address) { |a| == 42 && a[..2] == "0x" && forall k :: 2 <= k < 42 ==> a[k] == '0' }

  lemma ZeroText(a: Address)
    ensures ZeroAddress(a) <==> a == ZERO_ADDR
  {
    var z := ZERO_ADDR;
    assert z[..2] == "0x" by { assert z[0] == '0' && z[1] == 'x'; }
    assert ZeroAddress(z);
    if ZeroAddress(a) {
      forall k | 0 <= k < 42 ensures a[k] == z[k] {
        if k < 2 { assert a[k] == a[..2][k] && z[k] == z[..2][k]; }
      }
      assert a == z;
    }
  }

  /** What an answer of the registry says about the owner: bound to an account other than zero, or none. */
  predicate OwnerSays(v: Value, owner: Option<Owner>) {
    && v.OwnerVal?
    && (owner.Some? <==> v.bound && !ZeroAddress(v.addr))
    && (owner.Some? ==> owner.value.addr == v.addr && owner.value.epoch == v.epoch)
  }

  /** What it says about the record: none as long as nothing has been published. */
  predicate RecordSays(v: Value, record: Option<Record>) {
    && v.RecordVal?
    && (record.Some? <==> v.seqNo != 0)
    && (record.Some? ==> record.value.ih == v.ih && record.value.license == v.license && record.value.seqNo == v.seqNo)
  }

  lemma OwnerFromSays(v: Value)
    requires v.OwnerVal?
    ensures OwnerSays(v, OwnerFrom(v))
  {
    ZeroText(v.addr);
  }

  /** The registry's owner and record for a name at a canonical block, read off the chain itself. */
  ghost predicate TrueAnswer(ch: Chain, pk: string, name: string, v: Verified) {
    && Canonical(ch, v.height, v.hash)
    && (OwnerOf(pk), v.hash) in ch.truth
    && OwnerSays(ch.truth[(OwnerOf(pk), v.hash)], v.owner)
    && match v.owner
       case None => v.record.None?
       case Some(o) =>
         && (Resolve(o.addr, name), v.hash) in ch.truth
         && RecordSays(ch.truth[(Resolve(o.addr, name), v.hash)], v.record)
  }

  lemma AttemptTrue(c: Config, ch: Chain, r: Rpc, faulty: set<nat>, pk: string, name: string)
    requires c.minAgree >= 1 && FewFaulty(c, ch, r, faulty)
    ensures Attempt(c, r, pk, name).Ok? ==> TrueAnswer(ch, pk, name, Attempt(c, r, pk, name).value)
  {
    if Attempt(c, r, pk, name).Ok? {
      var s := Take(c, r).value;
      SnapshotCanonical(c, ch, r, faulty);
      ReadTrue(c, ch, s, r, OwnerOf(pk), faulty);
      ReadShaped(c, s, r, OwnerOf(pk));
      OwnerFromSays(ReadAll(c, s, r, OwnerOf(pk)).value);
      hide Take, ReadAll, OwnerSays, OwnerFrom;
      var o := OwnerFrom(ReadAll(c, s, r, OwnerOf(pk)).value);
      if o.Some? {
        ReadTrue(c, ch, s, r, Resolve(o.value.addr, name), faulty);
        ReadShaped(c, s, r, Resolve(o.value.addr, name));
      }
    }
  }

  /**
   With fewer than minAgree faulty endpoints in each attempt, whatever they answer, a result is the registry's own
   owner and record at one canonical block.
   */
  lemma VerifiedIsTrue(c: Config, ch: Chain, first: Rpc, second: Rpc, faulty1: set<nat>, faulty2: set<nat>, pk: string,
                       name: string)
    requires c.minAgree >= 1 && FewFaulty(c, ch, first, faulty1) && FewFaulty(c, ch, second, faulty2)
    ensures VerifiedRead(c, first, second, pk, name).Ok? ==>
      TrueAnswer(ch, pk, name, VerifiedRead(c, first, second, pk, name).value)
  {
    AttemptTrue(c, ch, first, faulty1, pk, name);
    AttemptTrue(c, ch, second, faulty2, pk, name);
    hide Attempt, TrueAnswer;
  }

  /** A disagreement is proof of a faulty endpoint. */
  lemma DisagreementMeansFault(c: Config, ch: Chain, r: Rpc)
    requires c.minAgree >= 1 && forall i :: Honest(ch, r, i)
    ensures Take(c, r) != Err(RpcDisagreement)
    ensures forall s: Snapshot, call: Call :: Distinct(s.endpoints) && Canonical(ch, s.height, s.hash) ==>
      ReadAll(c, s, r, call) != Err(RpcDisagreement)
  {
    TakeAgrees(c, ch, r);
    forall s: Snapshot, call | Distinct(s.endpoints) && Canonical(ch, s.height, s.hash)
      ensures ReadAll(c, s, r, call) != Err(RpcDisagreement)
    {
      AnswersFrom(s, r, call, |s.endpoints|);
      var a := AnswersOf(s, r, call, |s.endpoints|);
      forall k | 0 <= k < |a| ensures True(ch, call, s.hash, a[k].value) { assert Honest(ch, r, a[k].i); }
    }
  }

  lemma TakeAgrees(c: Config, ch: Chain, r: Rpc)
    requires c.minAgree >= 1 && forall i :: Honest(ch, r, i)
    ensures Take(c, r) != Err(RpcDisagreement)
  {
    hide SeenAll, HeightOf, LiveAll, FreshAll;
    if EnoughHeads(c, r) {
      SeenFacts(c, r);
      var seen := SeenAll(c, r);
      forall k | 0 <= k < |seen| ensures Canonical(ch, HeightOf(c, r), seen[k].hash) {
        assert Honest(ch, r, seen[k].i);
      }
    }
  }

  // ---- the height -----------------------------------------------------------------------------------------------

  /** How many of the nearby heads reach t. */
  function Reach(near: seq<Live>, t: nat): nat { CountTo(false, Heads(near), t) }

  /** At least m heads reach t exactly when the m-th largest does. */
  lemma LargestReach(near: seq<Live>, m: nat, t: nat)
    requires 1 <= m <= |near|
    ensures Reach(near, t) >= m <==> t <= TargetOf(near, m)
  {
    var heads := Heads(near);
    var desc := Sort(false, heads);
    SortSorts(false, heads);
    hide Sort, CountTo, Ordered;
    KthCounts(false, desc, m - 1, t);
    CountSort(false, false, heads, t);
  }

  /** A quorum of the surviving heads can serve the height, and no head above the target has a quorum. */
  lemma HeightIsBest(c: Config, r: Rpc)
    requires EnoughHeads(c, r)
    ensures var near := FreshAll(c, r); var target := TargetOf(near, c.minAgree);
      && Reach(near, target) >= c.minAgree
      && Reach(near, HeightOf(c, r)) >= c.minAgree
      && forall t :: t > target ==> Reach(near, t) < c.minAgree
  {
    var near := FreshAll(c, r);
    hide FreshAll, TargetOf, Reach, LiveAll;
    var target := TargetOf(near, c.minAgree);
    LargestReach(near, c.minAgree, target);
    LargestReach(near, c.minAgree, HeightBelow(target));
    forall t | t > target ensures Reach(near, t) < c.minAgree {
      LargestReach(near, c.minAgree, t);
    }
  }

  /** An honest endpoint of this chain whose head is at least t. */
  predicate HonestHead(c: Config, r: Rpc, faulty: set<nat>, t: nat, i: nat) {
    i < |r.probes| && i !in faulty && OnChain(r.probes[i], c.chainId) && r.probes[i].head >= t
  }

  /** Fewer than minAgree faulty endpoints cannot raise the height above an honest head less the lag. */
  lemma HeightBelowHonest(c: Config, r: Rpc, faulty: set<nat>) returns (i: nat)
    requires EnoughHeads(c, r) && |faulty| < c.minAgree
    ensures HonestHead(c, r, faulty, TargetOf(FreshAll(c, r), c.minAgree), i)
    ensures HeightOf(c, r) == 0 || HeightOf(c, r) + 2 <= r.probes[i].head
  {
    hide FreshAll, LiveAll, TargetOf, AbleOf;
    var near := FreshAll(c, r);
    var target := TargetOf(near, c.minAgree);
    HeightIsBest(c, r);
    FreshFacts(c, r);
    AbleRising(near, target, |near|, |r.probes|);
    var able := AbleOf(near, target, |near|);
    assert Heads(near)[..|near|] == Heads(near);
    hide CountTo;
    var who := seq(|able|, k requires 0 <= k < |able| => able[k].i);
    var k := OneHonest(who, faulty);
    assert able[k] in near[..|near|];
    i := able[k].i;
  }

  lemma FreshFacts(c: Config, r: Rpc)
    requires LiveAll(c, r) != []
    ensures Rising(FreshAll(c, r), |r.probes|)
    ensures forall x :: x in FreshAll(c, r) ==> x.i < |r.probes| && r.probes[x.i] == Up(c.chainId, x.head)
  {
    var live := LiveAll(c, r);
    LiveRising(r.probes, c.chainId, |r.probes|);
    FreshRising(live, MedianOf(live), |live|, |r.probes|);
    hide LiveOf, FreshOf, MedianOf;
    var near := FreshAll(c, r);
    forall x | x in near ensures x.i < |r.probes| && r.probes[x.i] == Up(c.chainId, x.head) {
      var k :| 0 <= k < |near| && near[k] == x;
      assert near[k] in live[..|live|];
    }
  }

  // ---- the median filter -------------------------------------------------------------------------------------------

  /** How many of the live endpoints are in `honest`. */
  function HonestCount(live: seq<Live>, honest: set<nat>): nat {
    if live == [] then 0 else (if live[0].i in honest then 1 else 0) + HonestCount(live[1..], honest)
  }

  /** Heads outside what the honest ones report belong to the others. */
  lemma {:induction false} Outliers(live: seq<Live>, honest: set<nat>, up: bool, t: nat)
    requires forall k :: 0 <= k < |live| && live[k].i in honest ==> !Before(up, live[k].head, t)
    ensures CountTo(up, Heads(live), t) + HonestCount(live, honest) <= |live|
  {
    if live == [] {
    } else {
      assert Heads(live)[1..] == Heads(live[1..]);
      assert forall k :: 0 <= k < |live[1..]| ==> live[1..][k] == live[k + 1];
      Outliers(live[1..], honest, up, t);
    }
  }

  /** A strict honest majority keeps the median between its lowest and its highest head. */
  lemma MedianBetween(live: seq<Live>, honest: set<nat>, lo: nat, hi: nat)
    requires live != [] && 2 * HonestCount(live, honest) > |live|
    requires forall k :: 0 <= k < |live| && live[k].i in honest ==> lo <= live[k].head <= hi
    ensures lo <= MedianOf(live) <= hi
  {
    var asc := Sort(true, Heads(live));
    SortSorts(true, Heads(live));
    var n := |asc|;
    var a: nat := if n % 2 == 1 then (n - 1) / 2 else n / 2 - 1;
    var b: nat := if n % 2 == 1 then (n - 1) / 2 else n / 2;
    hide Sort;
    LowMiddle(live, honest, asc, a, lo);
    HighMiddle(live, honest, asc, b, hi);
  }

  lemma LowMiddle(live: seq<Live>, honest: set<nat>, asc: seq<nat>, a: nat, lo: nat)
    requires asc == Sort(true, Heads(live)) && Ordered(true, asc) && a < |asc| == |live|
      && 2 * HonestCount(live, honest) > |live| && 2 * a + 2 >= |live|
    requires forall k :: 0 <= k < |live| && live[k].i in honest ==> lo <= live[k].head
    ensures asc[a] >= lo
  {
    if lo > 0 {
      Outliers(live, honest, true, lo - 1);
      CountSort(true, true, Heads(live), lo - 1);
      KthCounts(true, asc, a, lo - 1);
    }
  }

  lemma HighMiddle(live: seq<Live>, honest: set<nat>, asc: seq<nat>, b: nat, hi: nat)
    requires asc == Sort(true, Heads(live)) && Ordered(true, asc) && b < |asc| == |live|
      && 2 * HonestCount(live, honest) > |live| && 2 * b <= |live|
    requires forall k :: 0 <= k < |live| && live[k].i in honest ==> live[k].head <= hi
    ensures asc[b] <= hi
  {
    if asc[b] > hi {
      KthCountsBack(asc, b, hi + 1);
      CountSort(false, true, Heads(live), hi + 1);
      Outliers(live, honest, false, hi + 1);
      assert false;
    }
  }

  /** So the filter never evicts an honest endpoint when the honest heads lie within MAX_HEAD_LAG of each other. */
  lemma HonestSurvive(c: Config, r: Rpc, honest: set<nat>, lo: nat, k: nat)
    requires LiveAll(c, r) != [] && 2 * HonestCount(LiveAll(c, r), honest) > |LiveAll(c, r)|
    requires forall j :: 0 <= j < |LiveAll(c, r)| && LiveAll(c, r)[j].i in honest ==>
      lo <= LiveAll(c, r)[j].head <= lo + MAX_HEAD_LAG
    requires k < |LiveAll(c, r)| && LiveAll(c, r)[k].i in honest
    ensures LiveAll(c, r)[k] in FreshAll(c, r)
  {
    var live := LiveAll(c, r);
    MedianBetween(live, honest, lo, lo + MAX_HEAD_LAG);
    LiveRising(r.probes, c.chainId, |r.probes|);
    FreshRising(live, MedianOf(live), |live|, |r.probes|);
  }
}
