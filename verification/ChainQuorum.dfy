/**
 Quorum reads of the on-chain registry (src/chain.ts:60-64, 176-307): which snapshot the endpoints' heads select,
 what agreement on its hash and on a pinned view establishes, and one retry.
 */
module ChainQuorum {
  import opened Options

  type Hash = string
  type Address = string

  const MAX_HEAD_LAG: nat := 64
  const SNAPSHOT_LAG: nat := 2
  const ZERO_ADDR: Address := "0x0000000000000000000000000000000000000000"

  datatype Error = AllRpcsFailed(got: nat, need: nat) | RpcDisagreement
  datatype Result<T> = Ok(value: T) | Err(error: Error)

  datatype Probe = Down | Up(chainId: nat, head: nat)
  datatype Call = OwnerOf(pk: string) | Resolve(addr: Address, name: string)
  datatype Value = OwnerVal(addr: Address, epoch: nat, bound: bool) | RecordVal(ih: string, license: string, seqNo: nat)

  /**
   What the endpoints answer during one attempt: endpoint and height, or endpoint, call and block hash.  No entry is
   a failure.
   */
  datatype Rpc = Rpc(probes: seq<Probe>, hashAt: map<(nat, nat), Hash>, call: map<(nat, Call, Hash), Value>)

  /** chainId and minAgree; the constructor refuses a minAgree below one. */
  datatype Config = Config(chainId: nat, minAgree: nat)

  datatype Live = Live(i: nat, head: nat)
  datatype Seen = Seen(i: nat, hash: Hash)
  datatype Answer = Answer(i: nat, value: Value)
  datatype Snapshot = Snapshot(height: nat, hash: Hash, endpoints: seq<nat>)

  // ---- sorting and the median ---------------------------------------------------------------------------

  predicate Before(up: bool, a: nat, b: nat) { if up then a <= b else a >= b }

  function Insert(up: bool, x: nat, s: seq<nat>): seq<nat> {
    if s == [] || Before(up, x, s[0]) then [x] + s else [s[0]] + Insert(up, x, s[1..])
  }

  function Sort(up: bool, s: seq<nat>): seq<nat> {
    if s == [] then [] else Insert(up, s[0], Sort(up, s[1..]))
  }

  predicate Ordered(up: bool, s: seq<nat>) {
    forall i, j :: 0 <= i < j < |s| ==> Before(up, s[i], s[j])
  }

  lemma {:induction false} InsertElements(up: bool, x: nat, s: seq<nat>)
    ensures multiset(Insert(up, x, s)) == multiset(s) + multiset{x}
    ensures forall y :: y in Insert(up, x, s) ==> y in s || y == x
  {
    if s == [] || Before(up, x, s[0]) {
    } else {
      InsertElements(up, x, s[1..]);
      assert s == [s[0]] + s[1..];
    }
  }

  lemma {:induction false} InsertOrdered(up: bool, x: nat, s: seq<nat>)
    requires Ordered(up, s)
    ensures Ordered(up, Insert(up, x, s))
  {
    if s == [] || Before(up, x, s[0]) {
    } else {
      var rest := s[1..];
      assert forall k :: 0 <= k < |rest| ==> rest[k] == s[k + 1];
      InsertOrdered(up, x, rest);
      InsertElements(up, x, rest);
      var t := Insert(up, x, rest);
      hide Insert;
      forall k | 0 <= k < |t| ensures Before(up, s[0], t[k]) {
        assert t[k] in t;
        if t[k] in rest { var j :| 0 <= j < |rest| && rest[j] == t[k]; }
      }
      InFront(up, s[0], t);
      assert Insert(up, x, s) == [s[0]] + t by { InsertRest(up, x, s); }
    }
  }

  lemma InsertRest(up: bool, x: nat, s: seq<nat>)
    requires s != [] && !Before(up, x, s[0])
    ensures Insert(up, x, s) == [s[0]] + Insert(up, x, s[1..])
  {}

  lemma InFront(up: bool, x: nat, t: seq<nat>)
    requires Ordered(up, t) && forall k :: 0 <= k < |t| ==> Before(up, x, t[k])
    ensures Ordered(up, [x] + t)
  {
    hide Before;
    var u := [x] + t;
    forall i, j | 0 <= i < j < |u| ensures Before(up, u[i], u[j]) {
      assert u[j] == t[j - 1];
      if i > 0 { assert u[i] == t[i - 1]; }
    }
  }

  lemma {:induction false} SortSorts(up: bool, s: seq<nat>)
    ensures Ordered(up, Sort(up, s)) && multiset(Sort(up, s)) == multiset(s) && |Sort(up, s)| == |s|
  {
    if s == [] {
    } else {
      SortSorts(up, s[1..]);
      InsertOrdered(up, s[0], Sort(up, s[1..]));
      InsertElements(up, s[0], Sort(up, s[1..]));
      hide Ordered, Insert;
      assert s == [s[0]] + s[1..];
      assert |Sort(up, s)| == |multiset(Sort(up, s))| == |multiset(s)| == |s|;
    }
  }

  /** The middle head, or the truncated mean of the two middle ones. */
  function Median(asc: seq<nat>): nat
    requires asc != []
  {
    if |asc| % 2 == 1 then asc[(|asc| - 1) / 2] else (asc[|asc| / 2 - 1] + asc[|asc| / 2]) / 2
  }

  // ---- counting -------------------------------------------------------------------------------------------

  /** How many elements are before t, or t itself: at most t going up, at least t going down. */
  function CountTo(up: bool, s: seq<nat>, t: nat): nat {
    if s == [] then 0 else (if Before(up, s[0], t) then 1 else 0) + CountTo(up, s[1..], t)
  }

  lemma {:induction false} CountInsert(d: bool, up: bool, x: nat, s: seq<nat>, t: nat)
    ensures CountTo(d, Insert(up, x, s), t) == CountTo(d, s, t) + if Before(d, x, t) then 1 else 0
  {
    if s == [] || Before(up, x, s[0]) {
      assert ([x] + s)[1..] == s;
    } else {
      CountInsert(d, up, x, s[1..], t);
      assert ([s[0]] + Insert(up, x, s[1..]))[1..] == Insert(up, x, s[1..]);
    }
  }

  lemma {:induction false} CountSort(d: bool, up: bool, s: seq<nat>, t: nat)
    ensures CountTo(d, Sort(up, s), t) == CountTo(d, s, t)
  {
    if s == [] {
    } else {
      CountSort(d, up, s[1..], t);
      CountInsert(d, up, s[0], Sort(up, s[1..]), t);
    }
  }

  lemma {:induction false} CountSplit(d: bool, s: seq<nat>, k: nat, t: nat)
    requires k <= |s|
    ensures CountTo(d, s, t) == CountTo(d, s[..k], t) + CountTo(d, s[k..], t)
  {
    if k == 0 {
      assert s[..k] == [] && s[k..] == s;
    } else {
      CountSplit(d, s[1..], k - 1, t);
      assert s[..k][1..] == s[1..][..k - 1];
      assert s[1..][k - 1..] == s[k..];
    }
  }

  lemma {:induction false} CountAll(d: bool, s: seq<nat>, t: nat)
    ensures (forall i :: 0 <= i < |s| ==> Before(d, s[i], t)) ==> CountTo(d, s, t) == |s|
    ensures (forall i :: 0 <= i < |s| ==> !Before(d, s[i], t)) ==> CountTo(d, s, t) == 0
    ensures CountTo(d, s, t) <= |s|
  {
    if s == [] {
    } else {
      CountAll(d, s[1..], t);
      assert forall i :: 0 <= i < |s[1..]| ==> s[1..][i] == s[i + 1];
    }
  }

  lemma CountPrefix(d: bool, s: seq<nat>, k: nat, t: nat)
    requires k <= |s| && forall i :: 0 <= i < k ==> Before(d, s[i], t)
    ensures CountTo(d, s, t) >= k
  {
    hide Before;
    CountSplit(d, s, k, t);
    CountAll(d, s[..k], t);
    CountAll(d, s[k..], t);
  }

  lemma CountSuffix(d: bool, s: seq<nat>, k: nat, t: nat)
    requires k <= |s| && forall i :: k <= i < |s| ==> !Before(d, s[i], t)
    ensures CountTo(d, s, t) <= k
  {
    hide Before;
    CountSplit(d, s, k, t);
    CountAll(d, s[..k], t);
    CountAll(d, s[k..], t);
    assert forall i :: 0 <= i < |s[k..]| ==> s[k..][i] == s[k + i];
  }

  /** In a sorted sequence more than k elements lie up to t exactly when the k-th does. */
  lemma KthCounts(up: bool, s: seq<nat>, k: nat, t: nat)
    requires Ordered(up, s) && k < |s|
    ensures CountTo(up, s, t) > k <==> Before(up, s[k], t)
  {
    hide CountTo;
    if Before(up, s[k], t) {
      CountPrefix(up, s, k + 1, t);
    } else {
      CountSuffix(up, s, k, t);
    }
  }

  /** Seen from the other end. */
  lemma KthCountsBack(s: seq<nat>, k: nat, t: nat)
    requires Ordered(true, s) && k < |s| && s[k] >= t
    ensures CountTo(false, s, t) >= |s| - k
  {
    CountSplit(false, s, k, t);
    CountAll(false, s[k..], t);
    assert forall i :: 0 <= i < |s[k..]| ==> s[k..][i] == s[k + i];
  }

  // ---- snapshot ---------------------------------------------------------------------------------------------

  predicate OnChain(p: Probe, chainId: nat) { p.Up? && p.chainId == chainId }

  /** The first n endpoints that answered for the right chain. */
  function LiveOf(probes: seq<Probe>, chainId: nat, n: nat): seq<Live>
    requires n <= |probes|
  {
    if n == 0 then []
    else
      LiveOf(probes, chainId, n - 1)
      + if OnChain(probes[n - 1], chainId) then [Live(n - 1, probes[n - 1].head)] else []
  }

  function Heads(live: seq<Live>): (h: seq<nat>)
    ensures |h| == |live| && forall k :: 0 <= k < |live| ==> h[k] == live[k].head
  {
    seq(|live|, k requires 0 <= k < |live| => live[k].head)
  }

  function LiveIndices(live: seq<Live>): (s: seq<nat>)
    ensures |s| == |live| && forall k :: 0 <= k < |live| ==> s[k] == live[k].i
  {
    seq(|live|, k requires 0 <= k < |live| => live[k].i)
  }

  function Gap(a: nat, b: nat): nat { if a > b then a - b else b - a }

  /** Endpoints within MAX_HEAD_LAG of the median. */
  function FreshOf(live: seq<Live>, median: nat, n: nat): seq<Live>
    requires n <= |live|
  {
    if n == 0 then []
    else
      FreshOf(live, median, n - 1)
      + if Gap(live[n - 1].head, median) <= MAX_HEAD_LAG then [live[n - 1]] else []
  }

  /** Endpoints whose head reaches t. */
  function AbleOf(near: seq<Live>, t: nat, n: nat): seq<Live>
    requires n <= |near|
  {
    if n == 0 then [] else AbleOf(near, t, n - 1) + if near[n - 1].head >= t then [near[n - 1]] else []
  }

  function HeightBelow(target: nat): nat { if target > SNAPSHOT_LAG then target - SNAPSHOT_LAG else 0 }

  /** The endpoints that reported a hash, with it. */
  function HashesOf(able: seq<Live>, r: Rpc, height: nat, n: nat): seq<Seen>
    requires n <= |able|
  {
    if n == 0 then [] else HashesOf(able, r, height, n - 1) + Report(r, able[n - 1].i, height)
  }

  function Report(r: Rpc, i: nat, height: nat): seq<Seen> {
    if (i, height) in r.hashAt then [Seen(i, r.hashAt[(i, height)])] else []
  }

  function MedianOf(live: seq<Live>): nat
    requires live != []
  {
    SortSorts(true, Heads(live));
    Median(Sort(true, Heads(live)))
  }

  /** The minAgree-th largest head. */
  function TargetOf(near: seq<Live>, minAgree: nat): nat
    requires 1 <= minAgree <= |near|
  {
    SortSorts(false, Heads(near));
    Sort(false, Heads(near))[minAgree - 1]
  }

  function LiveAll(c: Config, r: Rpc): seq<Live> { LiveOf(r.probes, c.chainId, |r.probes|) }

  function FreshAll(c: Config, r: Rpc): seq<Live>
    requires LiveAll(c, r) != []
  {
    FreshOf(LiveAll(c, r), MedianOf(LiveAll(c, r)), |LiveAll(c, r)|)
  }

  /** Enough endpoints are live, and enough of those near the median. */
  predicate EnoughHeads(c: Config, r: Rpc) {
    1 <= c.minAgree <= |LiveAll(c, r)| && c.minAgree <= |FreshAll(c, r)|
  }

  function HeightOf(c: Config, r: Rpc): nat
    requires EnoughHeads(c, r)
  {
    HeightBelow(TargetOf(FreshAll(c, r), c.minAgree))
  }

  /** The hashes reported for that height. */
  function SeenAll(c: Config, r: Rpc): seq<Seen>
    requires EnoughHeads(c, r)
  {
    var able := AbleOf(FreshAll(c, r), HeightOf(c, r), |FreshAll(c, r)|);
    HashesOf(able, r, HeightOf(c, r), |able|)
  }

  function Take(c: Config, r: Rpc): Result<Snapshot>
    requires c.minAgree >= 1
  {
    if |LiveAll(c, r)| < c.minAgree then Err(AllRpcsFailed(|LiveAll(c, r)|, c.minAgree))
    else if |FreshAll(c, r)| < c.minAgree then Err(AllRpcsFailed(|FreshAll(c, r)|, c.minAgree))
    else
      var seen := SeenAll(c, r);
      if |seen| < c.minAgree then Err(AllRpcsFailed(|seen|, c.minAgree))
      else if exists k :: 0 <= k < |seen| && seen[k].hash != seen[0].hash then Err(RpcDisagreement)
      else Ok(Snapshot(HeightOf(c, r), seen[0].hash, Indices(seen)))
  }

  function Indices(seen: seq<Seen>): (e: seq<nat>)
    ensures |e| == |seen| && forall k :: 0 <= k < |seen| ==> e[k] == seen[k].i
  {
    seq(|seen|, k requires 0 <= k < |seen| => seen[k].i)
  }

  // ---- pinned reads ------------------------------------------------------------------------------------------

  predicate Shaped(call: Call, v: Value) { call.OwnerOf? <==> v.OwnerVal? }

  /** The endpoints of the snapshot that could answer pinned by its hash. */
  function AnswersOf(s: Snapshot, r: Rpc, call: Call, n: nat): seq<Answer>
    requires n <= |s.endpoints|
  {
    if n == 0 then [] else AnswersOf(s, r, call, n - 1) + Reply(r, s.endpoints[n - 1], call, s.hash)
  }

  /** An answer that does not decode counts as a failure. */
  function Reply(r: Rpc, i: nat, call: Call, hash: Hash): seq<Answer> {
    if (i, call, hash) in r.call && Shaped(call, r.call[(i, call, hash)]) then [Answer(i, r.call[(i, call, hash)])]
      else []
  }

  function ReadAll(c: Config, s: Snapshot, r: Rpc, call: Call): Result<Value>
    requires c.minAgree >= 1
  {
    var answers := AnswersOf(s, r, call, |s.endpoints|);
    if |answers| < c.minAgree then Err(AllRpcsFailed(|answers|, c.minAgree))
    else if exists k :: 0 <= k < |answers| && answers[k].value != answers[0].value then Err(RpcDisagreement)
    else Ok(answers[0].value)
  }

  datatype Owner = Owner(addr: Address, epoch: nat)
  datatype Record = Record(ih: string, license: string, seqNo: nat)
  datatype Verified = Verified(height: nat, hash: Hash, owner: Option<Owner>, record: Option<Record>)

  function OwnerFrom(v: Value): Option<Owner>
    requires v.OwnerVal?
  {
    if !v.bound || v.addr == ZERO_ADDR then None else Some(Owner(v.addr, v.epoch))
  }

  function RecordFrom(v: Value): Option<Record>
    requires v.RecordVal?
  {
    if v.seqNo == 0 then None else Some(Record(v.ih, v.license, v.seqNo))
  }

  lemma {:induction false} AnswersShaped(s: Snapshot, r: Rpc, call: Call, n: nat)
    requires n <= |s.endpoints|
    ensures forall k :: 0 <= k < |AnswersOf(s, r, call, n)| ==> Shaped(call, AnswersOf(s, r, call, n)[k].value)
  {
    if n == 0 {
    } else {
      AnswersShaped(s, r, call, n - 1);
    }
  }

  lemma ReadShaped(c: Config, s: Snapshot, r: Rpc, call: Call)
    requires c.minAgree >= 1
    ensures ReadAll(c, s, r, call).Ok? ==> Shaped(call, ReadAll(c, s, r, call).value)
  {
    AnswersShaped(s, r, call, |s.endpoints|);
  }

  /** owner, then that owner's record, at one snapshot. */
  function VerifiedAt(c: Config, s: Snapshot, r: Rpc, pk: string, name: string): Result<Verified>
    requires c.minAgree >= 1
  {
    ReadShaped(c, s, r, OwnerOf(pk));
    match ReadAll(c, s, r, OwnerOf(pk))
    case Err(e) => Err(e)
    case Ok(v) =>
      match OwnerFrom(v)
      case None => Ok(Verified(s.height, s.hash, None, None))
      case Some(o) =>
        ReadShaped(c, s, r, Resolve(o.addr, name));
        match ReadAll(c, s, r, Resolve(o.addr, name))
        case Err(e) => Err(e)
        case Ok(w) => Ok(Verified(s.height, s.hash, Some(o), RecordFrom(w)))
  }

  function Attempt(c: Config, r: Rpc, pk: string, name: string): Result<Verified>
    requires c.minAgree >= 1
  {
    match Take(c, r)
    case Err(e) => Err(e)
    case Ok(s) => VerifiedAt(c, s, r, pk, name)
  }

  /** Two attempts, each from a new snapshot; the second one's error stands. */
  function VerifiedRead(c: Config, first: Rpc, second: Rpc, pk: string, name: string): Result<Verified>
    requires c.minAgree >= 1
  {
    var a := Attempt(c, first, pk, name);
    if a.Ok? then a else Attempt(c, second, pk, name)
  }
}
