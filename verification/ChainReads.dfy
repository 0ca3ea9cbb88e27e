/**
 The reads as the client performs them (src/chain.ts:185-307): loops that push live, nearby and able endpoints and
 record why the others are excluded, a comparison of all answers, and the retry.
 */
module ChainReads {
  import opened Options
  import opened ChainQuorum

  datatype Reason = Unreachable | WrongChain | FarFromMedian | BelowHeight

  /** Every endpoint is either used by the snapshot or excluded for a reason. */
  predicate Accounted(n: nat, used: seq<nat>, excluded: map<nat, Reason>) {
    forall i :: 0 <= i < n ==> (i in excluded <==> i !in used)
  }

  method ProbeAll(c: Config, r: Rpc) returns (live: seq<Live>, excluded: map<nat, Reason>)
    ensures live == LiveAll(c, r)
    ensures Accounted(|r.probes|, LiveIndices(live), excluded)
  {
    live, excluded := [], map[];
    for i := 0 to |r.probes|
      invariant live == LiveOf(r.probes, c.chainId, i)
      invariant forall k :: 0 <= k < |live| ==> live[k].i < i
      invariant forall k :: k in excluded ==> k < i
      invariant Accounted(i, LiveIndices(live), excluded)
    {
      ghost var was := LiveIndices(live);
      match r.probes[i] {
        case Down => excluded := excluded[i := Unreachable];
        case Up(chainId, head) =>
          if chainId != c.chainId {
            excluded := excluded[i := WrongChain];
          } else {
            live := live + [Live(i, head)];
            assert LiveIndices(live) == was + [i];
          }
      }
    }
  }

  method NearMedian(live: seq<Live>, median: nat) returns (near: seq<Live>, far: map<nat, Reason>)
    ensures near == FreshOf(live, median, |live|)
    ensures forall i :: i in far <==>
      exists k :: 0 <= k < |live| && live[k].i == i && Gap(live[k].head, median) > MAX_HEAD_LAG
  {
    near, far := [], map[];
    for k := 0 to |live|
      invariant near == FreshOf(live, median, k)
      invariant forall i :: i in far <==>
        exists j :: 0 <= j < k && live[j].i == i && Gap(live[j].head, median) > MAX_HEAD_LAG
    {
      if Gap(live[k].head, median) <= MAX_HEAD_LAG {
        near := near + [live[k]];
      } else {
        far := far[live[k].i := FarFromMedian];
      }
    }
  }

  method AbleAt(near: seq<Live>, height: nat) returns (able: seq<Live>)
    ensures able == AbleOf(near, height, |near|)
  {
    able := [];
    for k := 0 to |near|
      invariant able == AbleOf(near, height, k)
    {
      if near[k].head >= height { able := able + [near[k]]; }
    }
  }

  method HashAll(able: seq<Live>, r: Rpc, height: nat) returns (seen: seq<Seen>)
    ensures seen == HashesOf(able, r, height, |able|)
  {
    seen := [];
    for k := 0 to |able|
      invariant seen == HashesOf(able, r, height, k)
    {
      var i := able[k].i;
      if (i, height) in r.hashAt { seen := seen + [Seen(i, r.hashAt[(i, height)])]; }
    }
  }

  /** The selected height: the minAgree-th largest head less the lag. */
  method PickHeight(near: seq<Live>, minAgree: nat) returns (height: nat)
    requires 1 <= minAgree <= |near|
    ensures height == HeightBelow(TargetOf(near, minAgree))
  {
    var desc := Sort(false, Heads(near));
    SortSorts(false, Heads(near));
    var target := desc[minAgree - 1];
    height := if target > SNAPSHOT_LAG then target - SNAPSHOT_LAG else 0;
  }

  method PickMedian(live: seq<Live>) returns (median: nat)
    requires live != []
    ensures median == MedianOf(live)
  {
    var asc := Sort(true, Heads(live));
    SortSorts(true, Heads(live));
    var n := |asc|;
    median := if n % 2 == 1 then asc[(n - 1) / 2] else (asc[n / 2 - 1] + asc[n / 2]) / 2;
  }

  method OneHash(seen: seq<Seen>) returns (same: bool)
    ensures same <==> !exists k :: 0 <= k < |seen| && seen[k].hash != seen[0].hash
  {
    if seen == [] { return true; }
    for k := 1 to |seen|
      invariant forall j :: 0 <= j < k ==> seen[j].hash == seen[0].hash
    {
      if seen[k].hash != seen[0].hash { return false; }
    }
    same := true;
  }

  method TakeSnapshot(c: Config, r: Rpc) returns (res: Result<Snapshot>)
    requires c.minAgree >= 1
    ensures res == Take(c, r)
  {
    hide LiveOf, FreshOf, AbleOf, HashesOf, MedianOf, TargetOf;
    var live, excluded := ProbeAll(c, r);
    if |live| < c.minAgree { return Err(AllRpcsFailed(|live|, c.minAgree)); }
    var median := PickMedian(live);
    var near, far := NearMedian(live, median);
    if |near| < c.minAgree { return Err(AllRpcsFailed(|near|, c.minAgree)); }
    var height := PickHeight(near, c.minAgree);
    var able := AbleAt(near, height);
    var seen := HashAll(able, r, height);
    assert seen == SeenAll(c, r);
    if |seen| < c.minAgree { return Err(AllRpcsFailed(|seen|, c.minAgree)); }
    var same := OneHash(seen);
    if !same { return Err(RpcDisagreement); }
    res := Ok(Snapshot(height, seen[0].hash, Indices(seen)));
  }

  method ReadEverywhere(c: Config, s: Snapshot, r: Rpc, call: Call) returns (res: Result<Value>)
    requires c.minAgree >= 1
    ensures res == ReadAll(c, s, r, call)
  {
    var answers: seq<Answer> := [];
    for k := 0 to |s.endpoints|
      invariant answers == AnswersOf(s, r, call, k)
    {
      var q := (s.endpoints[k], call, s.hash);
      if q in r.call && Shaped(call, r.call[q]) { answers := answers + [Answer(s.endpoints[k], r.call[q])]; }
    }
    if |answers| < c.minAgree { return Err(AllRpcsFailed(|answers|, c.minAgree)); }
    for k := 1 to |answers|
      invariant forall j :: 0 <= j < k ==> answers[j].value == answers[0].value
    {
      if answers[k].value != answers[0].value { return Err(RpcDisagreement); }
    }
    res := Ok(answers[0].value);
  }

  method ReadVerified(c: Config, rpcs: seq<Rpc>, pk: string, name: string) returns (res: Result<Verified>)
    requires c.minAgree >= 1 && |rpcs| == 2
    ensures res == VerifiedRead(c, rpcs[0], rpcs[1], pk, name)
  {
    hide Take, VerifiedAt;
    res := Err(RpcDisagreement);
    for attempt := 0 to 2
      invariant attempt >= 1 ==> Attempt(c, rpcs[0], pk, name).Err?
      invariant attempt == 2 ==> res == Attempt(c, rpcs[1], pk, name)
    {
      var s := TakeSnapshot(c, rpcs[attempt]);
      match s {
        case Err(e) => res := Err(e);
        case Ok(snap) =>
          res := VerifyAt(c, snap, rpcs[attempt], pk, name);
          if res.Ok? { return; }
      }
    }
  }

  method VerifyAt(c: Config, s: Snapshot, r: Rpc, pk: string, name: string) returns (res: Result<Verified>)
    requires c.minAgree >= 1
    ensures res == VerifiedAt(c, s, r, pk, name)
  {
    var o := ReadEverywhere(c, s, r, OwnerOf(pk));
    if o.Err? { return Err(o.error); }
    ReadShaped(c, s, r, OwnerOf(pk));
    var owner := OwnerFrom(o.value);
    if owner.None? { return Ok(Verified(s.height, s.hash, None, None)); }
    var w := ReadEverywhere(c, s, r, Resolve(owner.value.addr, name));
    if w.Err? { return Err(w.error); }
    ReadShaped(c, s, r, Resolve(owner.value.addr, name));
    res := Ok(Verified(s.height, s.hash, owner, RecordFrom(w.value)));
  }
}
