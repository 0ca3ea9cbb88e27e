/**
 Resumable download of one file (src/hf.ts:300-306, 330-418): what is kept, resumed or restarted, which responses
 are believed, and what a normal return means.
 */
module Download {
  import opened Options
  import opened BindingText

  type byte = x: int | 0 <= x < 256
  type Data = seq<byte>

  const DEFAULT_MAX: nat := 200 * 1024 * 1024 * 1024

  // ---- Content-Range -----------------------------------------------------------------------------------------

  datatype Range = Range(start: nat, end: nat, total: nat)

  function IndexOf(s: string, c: char): (i: nat)
    ensures i <= |s| && (i < |s| ==> s[i] == c) && forall k :: 0 <= k < i ==> s[k] != c
  {
    if s == "" then 0 else if s[0] == c then 0 else
      var i := IndexOf(s[1..], c);
      assert forall k :: 0 <= k < i ==> s[1..][k] == s[k + 1];
      i + 1
  }

  predicate Numeral(s: string) { s != "" && Digits(s) }

  /** bytes <start>-<end>/<total>, safe integers with start <= end < total; anything else is no range. */
  function ParseContentRange(h: string): Option<Range> {
    if !("bytes " <= h) then None
    else
      var a := h[6..];
      var i := IndexOf(a, '-');
      if i == |a| then None
      else
        var b := a[i + 1..];
        var j := IndexOf(b, '/');
        if j == |b| then None
        else RangeOf(a[..i], b[..j], b[j + 1..])
  }

  function RangeOf(x: string, y: string, z: string): Option<Range> {
    if !Numeral(x) || !Numeral(y) || !Numeral(z) then None
    else
      var r := Range(Number(x), Number(y), Number(z));
      if r.start > MAX_SAFE || r.end > MAX_SAFE || r.total > MAX_SAFE || r.start > r.end || r.end >= r.total then None
      else Some(r)
  }

  lemma Split(x: string, c: char, u: string)
    requires Digits(x) && !('0' <= c <= '9')
    ensures var s := x + [c] + u; IndexOf(s, c) == |x| && s[..|x|] == x && s[|x| + 1..] == u
  {
    var s := x + [c] + u;
    assert s[|x|] == c;
    assert forall k :: 0 <= k < |x| ==> s[k] == x[k] && s[k] != c;
  }

  /** The header text for any three fields. */
  lemma RangeText(x: string, y: string, z: string)
    requires Numeral(x) && Numeral(y)
    ensures ParseContentRange("bytes " + (x + "-" + (y + "/" + z))) == RangeOf(x, y, z)
  {
    hide RangeOf, Numeral;
    assert Digits(x) && Digits(y) by { NumeralDigits(x); NumeralDigits(y); }
    var b := y + "/" + z;
    var a := x + "-" + b;
    var h := "bytes " + a;
    assert "bytes " <= h && h[6..] == a;
    Split(x, '-', b);
    Split(y, '/', z);
  }

  lemma NumeralDigits(x: string)
    requires Numeral(x)
    ensures Digits(x)
  {}

  /** The header a server writes is read back, exactly when it makes sense. */
  lemma ContentRangeReads(s: nat, e: nat, t: nat)
    ensures ParseContentRange("bytes " + (Dec(s) + "-" + (Dec(e) + "/" + Dec(t)))) ==
      if s <= e < t <= MAX_SAFE then Some(Range(s, e, t)) else None
  {
    DecCanonical(s);
    DecCanonical(e);
    DecCanonical(t);
    hide Dec, Number, ParseContentRange;
    RangeText(Dec(s), Dec(e), Dec(t));
  }

  // ---- responses --------------------------------------------------------------------------------------------------

  /**
   The chunks that arrive, whether the stream then ends normally, and how much of a broken stream reaches the disk.
   */
  datatype Body = Body(chunks: seq<Data>, complete: bool, flushed: nat)

  datatype Response = NoResponse | Response(status: nat, contentRange: string, body: Option<Body>)

  /** What the caller knows about the file. */
  datatype Want = Want(size: Option<nat>, sha256: Option<string>, maxBytes: Option<nat>)

  datatype Outcome = Returned(got: nat) | Threw

  function Joined(chunks: seq<Data>): Data {
    if chunks == [] then [] else chunks[0] + Joined(chunks[1..])
  }

  lemma {:induction false} JoinedAppend(chunks: seq<Data>, c: Data)
    ensures Joined(chunks + [c]) == Joined(chunks) + c
  {
    if chunks == [] {
      assert Joined([c]) == c + Joined([c][1..]);
    } else {
      assert (chunks + [c])[1..] == chunks[1..] + [c];
      JoinedAppend(chunks[1..], c);
    }
  }

  lemma {:induction false} JoinedMore(chunks: seq<Data>, k: nat)
    requires k <= |chunks|
    ensures |Joined(chunks[..k])| <= |Joined(chunks)|
  {
    if k > 0 {
      assert chunks[..k][0] == chunks[0] && chunks[..k][1..] == chunks[1..][..k - 1];
      JoinedMore(chunks[1..], k - 1);
    } else {
      assert chunks[..0] == [];
    }
  }

  lemma JoinedNone()
    ensures Joined([]) == []
  {}

  /** x is a beginning of y. */
  predicate Prefix(x: Data, y: Data) { |x| <= |y| && x == y[..|x|] }

  /** The response carries bytes of one representation at the offset it claims. */
  ghost predicate Faithful(r: Response, rep: Data) {
    r.Response? && r.body.Some? ==>
      var data := Joined(r.body.value.chunks);
      if r.status == 206 then
        var cr := ParseContentRange(r.contentRange);
        cr.Some? ==> cr.value.start <= |rep| && Prefix(data, rep[cr.value.start..])
      else Prefix(data, rep)
  }

  lemma PrefixAppend(x: Data, y: Data, z: Data)
    requires Prefix(x, z) && Prefix(y, z[|x|..])
    ensures Prefix(x + y, z)
  {
    assert z == z[..|x|] + z[|x|..];
  }

  lemma PrefixCut(x: Data, y: Data, n: nat)
    requires Prefix(x, y) && n <= |x|
    ensures Prefix(x[..n], y)
  {}

  /** The file, if any, is the beginning of the representation. */
  ghost predicate Partial(file: Option<Data>, rep: Data) {
    file.Some? ==> Prefix(file.value, rep)
  }

  function Cap(want: Want): nat {
    if want.size.Some? then want.size.value else if want.maxBytes.Some? then want.maxBytes.value else DEFAULT_MAX
  }

  /** Exact size when known, matching digest when known, within the cap in any case. */
  predicate Meets(want: Want, sha: Data -> string, file: Option<Data>) {
    && file.Some? && |file.value| <= Cap(want)
    && (want.size.Some? ==> |file.value| == want.size.value)
    && (want.sha256.Some? ==> sha(file.value) == want.sha256.value)
  }

  /** A body that arrives whole, within the cap, after `start` bytes. */
  predicate Whole(r: Response, start: nat, cap: nat) {
    r.Response? && r.body.Some? && r.body.value.complete && start + |Joined(r.body.value.chunks)| <= cap
  }

  function Arrived(r: Response): Data
    requires r.Response? && r.body.Some?
  {
    Joined(r.body.value.chunks)
  }

  /** A range that starts exactly where the file ends, ends at the last byte, and totals the expected size. */
  predicate Exact(want: Want, r: Response, start: nat) {
    r.Response? && r.status == 206 &&
    match ParseContentRange(r.contentRange)
    case None => false
    case Some(cr) => cr.start == start && Some(cr.total) == want.size && cr.end == cr.total - 1
  }

  /** Bytes a resumed response adds. */
  predicate Resumes(want: Want, r: Response, start: nat) {
    Exact(want, r, start) && Whole(r, start, Cap(want)) && start + |Arrived(r)| == Cap(want)
  }

  /** A response taken from zero: a full 200, also in answer to a range request. */
  predicate Restarts(want: Want, r: Response, ranged: bool) {
    Whole(r, 0, Cap(want)) && r.status != 206 && (if ranged then r.status == 200 else 200 <= r.status < 300)
  }

  /** Discarded for one clean retry. */
  predicate Retries(want: Want, r: Response, start: nat) {
    r.Response? && !Exact(want, r, start) && (r.status == 206 || r.status == 416)
  }

  function FromZero(want: Want, r: Response): Option<Data> {
    if Restarts(want, r, false) then Some(Arrived(r)) else None
  }

  /** The content a successful call leaves, before size and digest are checked. */
  function Fetched(want: Want, sha: Data -> string, file: Option<Data>, first: Response,
                   second: Response): Option<Data> {
    if want.size.Some? && want.maxBytes.Some? && want.size.value > want.maxBytes.value then None
    else if file.Some? && want.size == Some(|file.value|) then
      (if want.sha256.None? || sha(file.value) == want.sha256.value then file else FromZero(want, first))
    else if want.size == Some(0) && file.None? then Some([])
    else if want.size.Some? && file.Some? && 0 < |file.value| < want.size.value then
      var start := |file.value|;
      if Resumes(want, first, start) then Some(file.value + Arrived(first))
      else if Restarts(want, first, true) then Some(Arrived(first))
      else if Retries(want, first, start) then FromZero(want, second)
      else None
    else FromZero(want, first)
  }

  /** What the responses make of a file prepared to be resumed at `start`, or of no file. */
  function After(want: Want, file: Option<Data>, start: nat, first: Response, second: Response): Option<Data>
    requires start > 0 ==> file.Some?
  {
    if start == 0 then FromZero(want, first)
    else if Resumes(want, first, start) then Some(file.value + Arrived(first))
    else if Restarts(want, first, true) then Some(Arrived(first))
    else if Retries(want, first, start) then FromZero(want, second)
    else None
  }

  // ---- servers that do their part ---------------------------------------------------------------------------------

  /** A part of a file of known size, to be resumed. */
  predicate Resumable(want: Want, file: Option<Data>) {
    want.size.Some? && file.Some? && 0 < |file.value| < want.size.value
  }

  /** The whole representation, in full. */
  ghost predicate Full(r: Response, rep: Data) {
    && r.Response? && r.status == 200
    && r.body.Some? && r.body.value.complete && Joined(r.body.value.chunks) == rep
  }

  /** The rest of it from byte `start` on, announced as servers write it. */
  ghost predicate Rest(r: Response, rep: Data, start: nat) {
    && r.Response? && r.status == 206 && start < |rep| <= MAX_SAFE
    && r.contentRange == "bytes " + (Dec(start) + "-" + (Dec(|rep| - 1) + "/" + Dec(|rep|)))
    && r.body.Some? && r.body.value.complete && Joined(r.body.value.chunks) == rep[start..]
  }

  /** A range that is no answer to what was asked, whatever it carries: 416, or another start, end or total. */
  predicate Useless(want: Want, r: Response, start: nat) {
    && r.Response?
    && (r.status == 416
        || (r.status == 206 && match ParseContentRange(r.contentRange)
            case None => true
            case Some(cr) => cr.start != start || Some(cr.total) != want.size || cr.end + 1 != cr.total))
  }

  /** The representation is what the caller wants. */
  predicate Wanted(want: Want, sha: Data -> string, rep: Data) {
    && want.size == Some(|rep|)
    && (want.maxBytes.Some? ==> |rep| <= want.maxBytes.value)
    && (want.sha256.Some? ==> sha(rep) == want.sha256.value)
  }

  /** What the two responses must be for the representation to arrive. */
  ghost predicate Served(want: Want, file: Option<Data>, rep: Data, first: Response, second: Response) {
    if Resumable(want, file) then
      || Full(first, rep)
      || (Rest(first, rep, |file.value|) && Prefix(file.value, rep))
      || (Useless(want, first, |file.value|) && Full(second, rep))
    else Full(first, rep)
  }

  /** A file already of that size and digest stays; otherwise such responses leave the representation. */
  lemma ServedArrives(want: Want, sha: Data -> string, file: Option<Data>, rep: Data, first: Response, second: Response)
    requires Wanted(want, sha, rep) && Served(want, file, rep, first, second)
    ensures var content := Fetched(want, sha, file, first, second);
      && content.Some? && Meets(want, sha, content)
      && content == if Meets(want, sha, file) then file else Some(rep)
  {
    hide ParseContentRange, Dec;
    if Resumable(want, file) {
      var start := |file.value|;
      if Rest(first, rep, start) && Prefix(file.value, rep) {
        ContentRangeReads(start, |rep| - 1, |rep|);
        assert file.value + rep[start..] == rep;
      }
    } else if want.size == Some(0) && file.None? {
      assert rep == [];
    }
  }

  /** No answer at all, a refusal, or an error. */
  predicate Broken(r: Response) { r.NoResponse? || r.status !in {200, 206, 416} }

  datatype Step = Retry | Failed | Done(got: nat)

  // ---- the download ------------------------------------------------------------------------------------------------

  class Destination {
    var file: Option<Data>

    constructor (file: Option<Data>)
      ensures this.file == file
    {
      this.file := file;
    }

    /** Stream a body onto what the file holds (`start` bytes), or into a fresh file when start is 0. */
    method Stream(body: Body, start: nat, cap: nat, ghost reps: iset<Data>) returns (ok: bool, received: nat)
      requires start <= cap && (start > 0 ==> file.Some? && |file.value| == start)
      requires forall rep :: rep in reps ==> Prefix(Base(start), rep) && Prefix(Joined(body.chunks), rep[start..])
      modifies this
      ensures forall rep :: rep in reps ==> Partial(file, rep)
      ensures ok <==> body.complete && start + |Joined(body.chunks)| <= cap
      ensures ok ==> file == Some(old(Base(start)) + Joined(body.chunks)) && received == |Joined(body.chunks)|
      ensures !body.complete && start + |Joined(body.chunks)| <= cap ==>
        var all := old(Base(start)) + Joined(body.chunks);
        file == Some(if start + body.flushed < |all| then all[..start + body.flushed] else all)
    {
      hide Joined, Prefix;
      JoinedNone();
      var base := if start > 0 then file.value else [];
      var written: Data := base;
      received := 0;
      ghost var n := 0;
      assert body.chunks[..0] == [];
      for k := 0 to |body.chunks|
        invariant received == |Joined(body.chunks[..k])| && written == base + Joined(body.chunks[..k])
        invariant start + received <= cap
        invariant file == old(file)
      {
        var c := body.chunks[k];
        assert body.chunks[..k + 1] == body.chunks[..k] + [c];
        JoinedAppend(body.chunks[..k], c);
        if start + received + |c| > cap {
          JoinedMore(body.chunks, k + 1);
          file := None;   // poisoned: not to be resumed from
          return false, received;
        }
        received := received + |c|;
        written := written + c;
      }
      assert body.chunks[..|body.chunks|] == body.chunks;
      forall rep | rep in reps ensures Prefix(written, rep) {
        PrefixAppend(base, Joined(body.chunks), rep);
      }
      if !body.complete {
        var keep := if body.flushed < |written| - |base| then |base| + body.flushed else |written|;
        assert written[..|written|] == written;
        file := Some(written[..keep]);
        forall rep | rep in reps ensures Partial(file, rep) { PrefixCut(written, rep, keep); }
        return false, received;
      }
      file := Some(written);
      ok := true;
    }

    /** A complete file is kept, a partial one of known size is resumed from its end, anything else goes. */
    method Prepare(want: Want, sha: Data -> string) returns (over: bool, out: Outcome, start: nat)
      modifies this
      ensures over && out.Returned? ==>
        Meets(want, sha, file) && forall r, q :: Fetched(want, sha, old(file), r, q) == file
      ensures over && !out.Returned? ==>
        forall r, q :: Fetched(want, sha, old(file), r, q).None?
          || !Meets(want, sha, Fetched(want, sha, old(file), r, q))
      ensures !over ==> start <= Cap(want) && (if start > 0 then file.Some? && |file.value| == start else file.None?)
      ensures !over ==> forall r, q :: Fetched(want, sha, old(file), r, q) == After(want, file, start, r, q)
      ensures file == old(file) || file == None || file == Some([])
      ensures Resumable(want, old(file)) ==> file == old(file) && (over ==> out.Threw?)
      ensures !over ==> (start > 0 <==> Resumable(want, old(file)))
    {
      out, start := Threw, 0;
      if want.size.Some? && want.maxBytes.Some? && want.size.value > want.maxBytes.value { return true, Threw, 0; }
      var existing := file;
      if want.size.Some? && existing.Some? && |existing.value| == want.size.value {
        if want.sha256.None? || sha(existing.value) == want.sha256.value { return true, Returned(0), 0; }
        file := None;
      } else if want.size == Some(0) && existing.None? {
        file := Some([]);
        if want.sha256.Some? && sha([]) != want.sha256.value { file := None; return true, Threw, 0; }
        return true, Returned(0), 0;
      }
      over := false;
      if want.size.Some? && existing.Some? && 0 < |existing.value| < want.size.value {
        start := |existing.value|;
      } else if existing.Some? && !(want.size.Some? && |existing.value| == want.size.value) {
        file := None;
      }
    }

    /** A response to a plain request, into a fresh file. */
    method ReceiveWhole(want: Want, r: Response, ghost reps: iset<Data>) returns (step: Step)
      requires file.None? && forall rep :: rep in reps ==> Faithful(r, rep)
      modifies this
      ensures forall rep :: rep in reps ==> Partial(file, rep)
      ensures !step.Retry? && (step.Done? <==> Restarts(want, r, false))
      ensures step.Done? ==> file == Some(Arrived(r))
    {
      hide ParseContentRange;
      if r.NoResponse? || r.status == 401 || r.status == 403 { return Failed; }
      if r.status == 206 || !(200 <= r.status < 300) { return Failed; }
      if r.body.None? { return Failed; }
      FaithfulWhole(r, reps);
      hide Prefix, Faithful;
      var ok, got := Stream(r.body.value, 0, Cap(want), reps);
      assert [] + Arrived(r) == Arrived(r);
      step := if ok then Done(got) else Failed;
    }

    /** A response to a range request: believed, discarded for one clean retry, or an error. */
    method ReceiveRanged(want: Want, r: Response, start: nat, ghost reps: iset<Data>) returns (step: Step)
      requires 0 < start <= Cap(want) && file.Some? && |file.value| == start
      requires forall rep :: rep in reps ==> Partial(file, rep) && Faithful(r, rep)
      modifies this
      ensures forall rep :: rep in reps ==> Partial(file, rep)
      ensures step.Done? <==> Resumes(want, r, start) || Restarts(want, r, true)
      ensures step.Done? ==>
        file == if Resumes(want, r, start) then Some(old(file).value + Arrived(r)) else Some(Arrived(r))
      ensures step.Retry? <==> Retries(want, r, start)
      ensures step.Retry? ==> file.None?
      ensures Broken(r) ==> step.Failed? && file == old(file)
      ensures Exact(want, r, start) && r.body.Some? && !r.body.value.complete && start + |Arrived(r)| <= Cap(want) ==>
        file.Some? && old(file).value <= file.value && |file.value| >= start + Least(r.body.value.flushed, |Arrived(r)|)
    {
      if r.NoResponse? || r.status == 401 || r.status == 403 { return Failed; }
      var cr := if r.status == 206 then ParseContentRange(r.contentRange) else None;
      var got: nat;
      if cr.Some? && cr.value.start == start && Some(cr.value.total) == want.size
        && cr.value.end == cr.value.total - 1 {
        if r.body.None? { return Failed; }
        FaithfulRange(file, r, start, reps);
        hide Prefix, ParseContentRange, Faithful;
        var ok;
        ok, got := Stream(r.body.value, start, Cap(want), reps);
        if !ok { return Failed; }
        if got != cr.value.end - cr.value.start + 1 { file := None; return Failed; }
        return Done(got);
      }
      if r.status != 200 && r.status != 206 && r.status != 416 { return Failed; }
      file := None;
      if r.status != 200 { return Retry; }
      hide ParseContentRange;
      step := ReceiveWhole(want, r, reps);
    }

    /** Size and digest of the whole file have the last word. */
    method Conclude(want: Want, sha: Data -> string, got: nat) returns (out: Outcome)
      requires file.Some? && |file.value| <= Cap(want)
      modifies this
      ensures out == (if Meets(want, sha, old(file)) then Returned(got) else Threw)
      ensures file == if out.Returned? then old(file) else None
    {
      if want.size.Some? && |file.value| != want.size.value { file := None; return Threw; }
      if want.sha256.Some? && sha(file.value) != want.sha256.value { file := None; return Threw; }
      out := Returned(got);
    }

    /** The fetches: the i-th gets responses[i]; at most two are used. */
    method Fetch(want: Want, sha: Data -> string, start0: nat, responses: seq<Response>, ghost reps: iset<Data>)
      returns (out: Outcome, used: nat)
      requires |responses| >= 2 && start0 <= Cap(want)
      requires if start0 > 0 then file.Some? && |file.value| == start0 else file.None?
      requires forall rep :: rep in reps ==>
        Partial(file, rep) && Faithful(responses[0], rep) && Faithful(responses[1], rep)
      modifies this
      ensures used <= 2 && forall rep :: rep in reps ==> Partial(file, rep)
      ensures var content := After(want, old(file), start0, responses[0], responses[1]);
        && (out.Returned? <==> content.Some? && Meets(want, sha, content))
        && (out.Returned? ==> file == content)
      ensures start0 > 0 && Broken(responses[0]) ==> out.Threw? && file == old(file)
    {
      hide Faithful, Meets, Partial;
      used := 0;
      var start := start0;
      ghost var content := After(want, file, start, responses[0], responses[1]);
      NoContent(want, sha);
      PartialNone(reps);
      while used < 2
        invariant used <= 2 && start <= Cap(want)
        invariant if start > 0 then used == 0 && file.Some? && |file.value| == start else file.None?
        invariant used == 0 ==> start == start0 && file == old(file)
        invariant used > 0 ==> !(start0 > 0 && Broken(responses[0]))
        invariant used == 1 ==> content == FromZero(want, responses[1])
        invariant used < 2 || content == None
        invariant forall rep :: rep in reps ==> Partial(file, rep)
      {
        var r := responses[used];
        used := used + 1;
        var step;
        if start > 0 { step := ReceiveRanged(want, r, start, reps); } else { step := ReceiveWhole(want, r, reps); }
        match step {
          case Retry => start := 0;
          case Failed => return Threw, used;
          case Done(got) =>
            assert content == file;
            out := Conclude(want, sha, got);
            return;
        }
      }
      out := Threw;   // nothing was written: there is no file to measure
    }

    /**
     downloadFile.  A normal return means exact size and matching digest, whatever the servers did; against servers of
     one representation the file is always a beginning of it, and on a normal return with its size known, all of it.
     Servers that do their part leave the representation, and one that answers with an error leaves a file to resume.
     */
    method DownloadFile(want: Want, sha: Data -> string, responses: seq<Response>) returns (out: Outcome, used: nat)
      requires |responses| >= 2
      modifies this
      ensures used <= 2
      ensures var content := Fetched(want, sha, old(file), responses[0], responses[1]);
        && (out.Returned? <==> content.Some? && Meets(want, sha, content))
        && (out.Returned? ==> file == content)
      ensures forall rep :: Partial(old(file), rep) && Faithful(responses[0], rep) && Faithful(responses[1], rep) ==>
        (Partial(file, rep) && (out.Returned? && want.size == Some(|rep|) ==> file == Some(rep)))
      ensures forall rep :: Wanted(want, sha, rep) && Served(want, old(file), rep, responses[0], responses[1]) ==>
        out.Returned? && file == if Meets(want, sha, old(file)) then old(file) else Some(rep)
      ensures Resumable(want, old(file)) && Broken(responses[0]) ==> out.Threw? && file == old(file)
    {
      hide Faithful;
      ServedReturns(want, sha, file, responses[0], responses[1]);
      hide Served, Wanted;
      used := 0;
      ghost var reps := iset rep | Partial(file, rep) && Faithful(responses[0], rep) && Faithful(responses[1], rep);
      var over, start: nat;
      over, out, start := Prepare(want, sha);
      PartialNone(reps);
      hide Fetched, After, Broken;
      if !over { out, used := Fetch(want, sha, start, responses, reps); }
      AllOfIt(want, sha, file, reps);
      NoContent(want, sha);
    }

    /** What the file holds where streaming starts. */
    function Base(start: nat): Data
      requires start > 0 ==> file.Some?
      reads this
    {
      if start > 0 then file.value else []
    }
  }

  function Least(a: nat, b: nat): nat { if a < b then a else b }

  lemma ServedReturns(want: Want, sha: Data -> string, file: Option<Data>, first: Response, second: Response)
    ensures var content := Fetched(want, sha, file, first, second);
      forall rep :: Wanted(want, sha, rep) && Served(want, file, rep, first, second) ==>
        content.Some? && Meets(want, sha, content) && content == if Meets(want, sha, file) then file else Some(rep)
  {
    forall rep | Wanted(want, sha, rep) && Served(want, file, rep, first, second)
      ensures var content := Fetched(want, sha, file, first, second);
        content.Some? && Meets(want, sha, content) && content == if Meets(want, sha, file) then file else Some(rep)
    {
      ServedArrives(want, sha, file, rep, first, second);
    }
  }

  lemma NoContent(want: Want, sha: Data -> string)
    ensures !Meets(want, sha, None)
  {}

  lemma PartialNone(reps: iset<Data>)
    ensures forall rep :: Partial(None, rep) && Partial(Some([]), rep)
  {}

  lemma FaithfulWhole(r: Response, reps: iset<Data>)
    requires r.Response? && r.status != 206 && r.body.Some? && forall rep :: rep in reps ==> Faithful(r, rep)
    ensures forall rep :: rep in reps ==> Prefix([], rep) && Prefix(Joined(r.body.value.chunks), rep[0..])
  {
    forall rep | rep in reps ensures Prefix([], rep) && Prefix(Joined(r.body.value.chunks), rep[0..]) {
      assert Faithful(r, rep) && rep[0..] == rep;
    }
  }

  lemma FaithfulRange(file: Option<Data>, r: Response, start: nat, reps: iset<Data>)
    requires r.Response? && r.status == 206 && r.body.Some? && file.Some? && |file.value| == start
    requires ParseContentRange(r.contentRange).Some? && ParseContentRange(r.contentRange).value.start == start
    requires forall rep :: rep in reps ==> Partial(file, rep) && Faithful(r, rep)
    ensures forall rep :: rep in reps ==> Prefix(file.value, rep) && Prefix(Joined(r.body.value.chunks), rep[start..])
  {
    hide ParseContentRange;
    forall rep | rep in reps ensures Prefix(file.value, rep) && Prefix(Joined(r.body.value.chunks), rep[start..]) {
      assert Faithful(r, rep) && Partial(file, rep);
    }
  }

  /** A beginning of the representation of the right length is the representation. */
  lemma AllOfIt(want: Want, sha: Data -> string, file: Option<Data>, reps: iset<Data>)
    ensures forall rep :: rep in reps && Partial(file, rep) && Meets(want, sha, file) && want.size == Some(|rep|) ==>
      file == Some(rep)
  {
    forall rep | Partial(file, rep) && Meets(want, sha, file) && want.size == Some(|rep|) ensures file == Some(rep) {
      assert rep[..|rep|] == rep;
    }
  }
}
