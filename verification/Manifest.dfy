/**
 The manifest checker (src/hf.ts:84-173): which file lists of a model repository are accepted, for any way of
 folding names onto a case-insensitive filesystem.
 */
module Manifest {
  import opened Options

  datatype Result<T> = Ok(value: T) | Refused

  datatype Limits = Limits(maxFiles: nat, maxDepth: nat, maxFileBytes: nat, maxTotalBytes: nat)

  /** The API's JSON, with every way a field can be of the wrong type. */
  datatype SizeField = NoSize | BadSize | Size(bytes: nat)
  datatype ShaField = NoSha | BadSha | Sha(hex: string)
  datatype LfsField = NoLfs | BadLfs | Lfs(sha: ShaField, size: SizeField)
  datatype Sibling = NotObject | Sibling(rfilename: Option<string>, size: SizeField, lfs: LfsField)
  datatype Info = NotInfo | Info(sha: Option<string>, siblings: Option<seq<Sibling>>)

  datatype File = File(path: string, size: Option<nat>, sha256: Option<string>)
  datatype Accepted = Accepted(commit: string, files: seq<File>)

  // ---- paths (validatePath) --------------------------------------------------------------------------------

  /** Components between slashes. */
  function Parts(p: string): (s: seq<string>)
    ensures s != []
  {
    if p == "" then [""]
    else if p[0] == '/' then [""] + Parts(p[1..])
    else
      var rest := Parts(p[1..]);
      [[p[0]] + rest[0]] + rest[1..]
  }

  function LowerAscii(s: string): (t: string)
    ensures |t| == |s|
  {
    seq(|s|, i requires 0 <= i < |s| => if 'A' <= s[i] <= 'Z' then s[i] - 'A' + 'a' else s[i])
  }

  predicate AsciiDigit(c: char) { '0' <= c <= '9' }

  /** con, prn, aux, nul, com and lpt with a digit, in any case, alone or before a dot. */
  predicate Device(part: string) {
    var s := LowerAscii(part);
    || (|s| >= 3 && s[..3] in {"con", "prn", "aux", "nul"} && Extension(s[3..]))
    || (|s| >= 4 && s[..3] in {"com", "lpt"} && AsciiDigit(s[3]) && Extension(s[4..]))
  }

  /** Nothing, or a dot and the rest of one line. */
  predicate Extension(s: string) {
    s == "" || (s[0] == '.' && forall i :: 1 <= i < |s| ==> s[i] !in {'\n', '\r', '\U{2028}', '\U{2029}'})
  }

  predicate GoodPart(x: string) {
    x != "" && x != "." && x != ".." && !Device(x) && x[|x| - 1] != ' ' && x[|x| - 1] != '.'
  }

  predicate GoodChar(c: char) {
    && !('\0' <= c <= '\U{1f}') && !('\U{7f}' <= c <= '\U{9f}')
    && c !in {'\\', ':', '<', '>', '\"', '|', '?', '*'}
  }

  predicate GoodPath(p: string, limits: Limits) {
    && p != "" && (forall i :: 0 <= i < |p| ==> GoodChar(p[i])) && p[0] != '/'
    && |Parts(p)| <= limits.maxDepth && forall k :: 0 <= k < |Parts(p)| ==> GoodPart(Parts(p)[k])
  }

  // ---- one entry ---------------------------------------------------------------------------------------------

  predicate LowerHex(s: string) { forall i :: 0 <= i < |s| ==> '0' <= s[i] <= '9' || 'a' <= s[i] <= 'f' }

  predicate GoodLfs(l: LfsField, size: SizeField) {
    match l
    case NoLfs => true
    case BadLfs => false
    case Lfs(sha, lfsSize) =>
      && !sha.BadSha? && (sha.Sha? ==> |sha.hex| == 64 && LowerHex(sha.hex))
      && !lfsSize.BadSize? && (size.Size? && lfsSize.Size? ==> size.bytes == lfsSize.bytes)
  }

  predicate GoodEntry(s: Sibling, limits: Limits) {
    s.Sibling? && s.rfilename.Some? && GoodPath(s.rfilename.value, limits) && !s.size.BadSize? && GoodLfs(s.lfs, s.size)
  }

  function SizeOf(s: Sibling): Option<nat>
    requires s.Sibling?
  {
    if s.size.Size? then Some(s.size.bytes) else if s.lfs.Lfs? && s.lfs.size.Size? then Some(s.lfs.size.bytes) else None
  }

  function ShaOf(s: Sibling): Option<string>
    requires s.Sibling?
  {
    if s.lfs.Lfs? && s.lfs.sha.Sha? then Some(s.lfs.sha.hex) else None
  }

  function FileOf(s: Sibling): File {
    if s.Sibling? && s.rfilename.Some? then File(s.rfilename.value, SizeOf(s), ShaOf(s)) else File("", None, None)
  }

  predicate Skipped(path: string) { path == ".gitattributes" }

  function Bytes(f: File): nat { if f.size.Some? then f.size.value else 0 }

  // ---- all entries ---------------------------------------------------------------------------------------------

  /** i ends a prefix of the path: a directory before a slash, or the whole path. */
  predicate Cut(p: string, i: int) { 0 <= i <= |p| && (i == |p| || p[i] == '/') }

  /** The prefixes of a path that end before position n. */
  function PrefixesTo(p: string, n: nat): set<string>
    requires n <= |p| + 1
  {
    if n == 0 then {} else PrefixesTo(p, n - 1) + if Cut(p, n - 1) then {p[..n - 1]} else {}
  }

  /** Every directory prefix and the path itself; the directories alone. */
  function Prefixes(p: string): set<string> { PrefixesTo(p, |p| + 1) }
  function Directories(p: string): set<string> { PrefixesTo(p, |p|) }

  function AllPrefixes(files: seq<File>): set<string> {
    if files == [] then {} else AllPrefixes(files[..|files| - 1]) + Prefixes(files[|files| - 1].path)
  }

  function AllDirectories(files: seq<File>): set<string> {
    if files == [] then {} else AllDirectories(files[..|files| - 1]) + Directories(files[|files| - 1].path)
  }

  function AllFiles(siblings: seq<Sibling>): (f: seq<File>)
    ensures |f| == |siblings| && forall i :: 0 <= i < |f| ==> f[i] == FileOf(siblings[i])
  {
    seq(|siblings|, i requires 0 <= i < |siblings| => FileOf(siblings[i]))
  }

  function Kept(files: seq<File>): seq<File> {
    if files == [] then []
    else Kept(files[..|files| - 1]) + if Skipped(files[|files| - 1].path) then [] else [files[|files| - 1]]
  }

  function Total(files: seq<File>): nat {
    if files == [] then 0 else Total(files[..|files| - 1]) + Bytes(files[|files| - 1])
  }

  ghost predicate DistinctPaths(files: seq<File>) {
    forall i, j :: 0 <= i < j < |files| ==> files[i].path != files[j].path
  }

  /** Two names that fold alike are spelled alike. */
  ghost predicate OneSpelling(names: set<string>, fold: string -> string) {
    forall x, y :: x in names && y in names && fold(x) == fold(y) ==> x == y
  }

  /** A directory that folds to f. */
  ghost predicate FoldsTo(names: set<string>, fold: string -> string, f: string) {
    exists d :: d in names && fold(d) == f
  }

  ghost predicate NoFileIsDir(files: seq<File>, fold: string -> string) {
    forall i :: 0 <= i < |Kept(files)| ==> !FoldsTo(AllDirectories(files), fold, fold(Kept(files)[i].path))
  }

  ghost predicate WithinLimits(files: seq<File>, limits: Limits) {
    && (forall i :: 0 <= i < |Kept(files)| ==> Bytes(Kept(files)[i]) <= limits.maxFileBytes)
    && Total(Kept(files)) <= limits.maxTotalBytes
  }

  /** What an accepted manifest is. */
  ghost predicate Acceptable(info: Info, limits: Limits, fold: string -> string) {
    && info.Info? && info.sha.Some? && |info.sha.value| == 40 && LowerHex(info.sha.value)
    && info.siblings.Some? && |info.siblings.value| <= limits.maxFiles
    && (forall i :: 0 <= i < |info.siblings.value| ==> GoodEntry(info.siblings.value[i], limits))
    && var files := AllFiles(info.siblings.value);
       DistinctPaths(files) && OneSpelling(AllPrefixes(files), fold) && WithinLimits(files, limits)
         && NoFileIsDir(files, fold) && Kept(files) != []
  }

  // ---- the checks as loops -----------------------------------------------------------------------------------------

  method CheckPath(p: string, limits: Limits) returns (ok: bool)
    ensures ok <==> GoodPath(p, limits)
  {
    hide GoodChar, GoodPart, Parts;
    if p == "" { return false; }
    for i := 0 to |p|
      invariant forall k :: 0 <= k < i ==> GoodChar(p[k])
    {
      if !GoodChar(p[i]) { return false; }
    }
    if p[0] == '/' { return false; }
    var parts := Parts(p);
    if |parts| > limits.maxDepth { return false; }
    for k := 0 to |parts|
      invariant forall j :: 0 <= j < k ==> GoodPart(parts[j])
    {
      if !GoodPart(parts[k]) { return false; }
    }
    ok := true;
  }

  method CheckEntry(s: Sibling, limits: Limits) returns (r: Result<File>)
    ensures r.Ok? <==> GoodEntry(s, limits)
    ensures r.Ok? ==> r.value == FileOf(s)
  {
    hide GoodPath, LowerHex;
    if s.NotObject? || s.rfilename.None? { return Refused; }
    var good := CheckPath(s.rfilename.value, limits);
    if !good { return Refused; }
    if s.size.BadSize? { return Refused; }
    var sha256: Option<string>, lfsSize := None, NoSize;
    match s.lfs {
      case NoLfs =>
      case BadLfs => return Refused;
      case Lfs(sha, size) =>
        if sha.BadSha? { return Refused; }
        if sha.Sha? {
          if |sha.hex| != 64 || !LowerHex(sha.hex) { return Refused; }
          sha256 := Some(sha.hex);
        }
        if size.BadSize? { return Refused; }
        lfsSize := size;
        if s.size.Size? && lfsSize.Size? && s.size.bytes != lfsSize.bytes { return Refused; }
    }
    var size: Option<nat> :=
      if s.size.Size? then Some(s.size.bytes) else if lfsSize.Size? then Some(lfsSize.bytes) else None;
    r := Ok(File(s.rfilename.value, size, sha256));
  }

  /** `spelling` maps the fold of every name met so far to its one spelling. */
  ghost predicate Spelled(names: set<string>, fold: string -> string, spelling: map<string, string>) {
    && (forall x :: x in names ==> fold(x) in spelling && spelling[fold(x)] == x)
    && (forall f :: f in spelling ==> spelling[f] in names && fold(spelling[f]) == f)
  }

  ghost predicate FoldsOf(names: set<string>, fold: string -> string, dirs: set<string>) {
    forall f :: f in dirs <==> FoldsTo(names, fold, f)
  }

  lemma SpelledOnce(names: set<string>, fold: string -> string, spelling: map<string, string>)
    requires Spelled(names, fold, spelling)
    ensures OneSpelling(names, fold)
  {}

  lemma Collision(names: set<string>, more: set<string>, fold: string -> string, spelling: map<string, string>,
                  x: string)
    requires Spelled(names, fold, spelling) && fold(x) in spelling && spelling[fold(x)] != x && names <= more
      && x in more
    ensures !OneSpelling(more, fold)
  {
    assert spelling[fold(x)] in more;
  }

  lemma SpellMore(names: set<string>, fold: string -> string, spelling: map<string, string>, x: string)
    requires Spelled(names, fold, spelling) && (fold(x) in spelling ==> spelling[fold(x)] == x)
    ensures Spelled(names + {x}, fold, spelling[fold(x) := x])
  {}

  lemma FoldMore(names: set<string>, fold: string -> string, dirs: set<string>, x: string)
    requires FoldsOf(names, fold, dirs)
    ensures FoldsOf(names + {x}, fold, dirs + {fold(x)})
  {
    forall f ensures f in dirs + {fold(x)} <==> FoldsTo(names + {x}, fold, f) {
      if FoldsTo(names, fold, f) { var d :| d in names && fold(d) == f; assert d in names + {x}; }
      if f == fold(x) { assert x in names + {x}; }
    }
  }

  lemma {:induction false} PrefixesGrow(p: string, m: nat, n: nat)
    requires m <= n <= |p| + 1
    ensures PrefixesTo(p, m) <= PrefixesTo(p, n)
    decreases n
  {
    if m < n { PrefixesGrow(p, m, n - 1); }
  }

  lemma PrefixNone(p: string)
    ensures PrefixesTo(p, 0) == {}
  {}

  lemma PrefixNext(p: string, i: nat)
    requires i <= |p|
    ensures PrefixesTo(p, i + 1) == PrefixesTo(p, i) + if Cut(p, i) then {p[..i]} else {}
  {}

  /** The inner loop: every prefix of the path must have its one spelling. */
  method AddPath(path: string, fold: string -> string, spelling0: map<string, string>, dirs0: set<string>,
                 ghost names: set<string>, ghost under: set<string>)
    returns (ok: bool, spelling: map<string, string>, dirs: set<string>)
    requires Spelled(names, fold, spelling0) && FoldsOf(under, fold, dirs0)
    ensures ok <==> OneSpelling(names + Prefixes(path), fold)
    ensures ok ==> Spelled(names + Prefixes(path), fold, spelling) && FoldsOf(under + Directories(path), fold, dirs)
  {
    hide Spelled, FoldsOf, OneSpelling, FoldsTo, PrefixesTo;
    spelling, dirs := spelling0, dirs0;
    PrefixNone(path);
    assert names + PrefixesTo(path, 0) == names && under + PrefixesTo(path, 0) == under;
    for i := 0 to |path| + 1
      invariant Spelled(names + PrefixesTo(path, i), fold, spelling)
      invariant FoldsOf(under + PrefixesTo(path, if i <= |path| then i else |path|), fold, dirs)
    {
      PrefixNext(path, i);
      if i == |path| || path[i] == '/' {
        var exact := path[..i];
        var f := fold(exact);
        if f in spelling && spelling[f] != exact {
          PrefixesGrow(path, i, |path| + 1);
          PrefixesGrow(path, i + 1, |path| + 1);
          Collision(names + PrefixesTo(path, i), names + Prefixes(path), fold, spelling, exact);
          return false, spelling, dirs;
        }
        SpellMore(names + PrefixesTo(path, i), fold, spelling, exact);
        assert names + PrefixesTo(path, i) + {exact} == names + PrefixesTo(path, i + 1);
        spelling := spelling[f := exact];
        if i < |path| {
          FoldMore(under + PrefixesTo(path, i), fold, dirs, exact);
          assert under + PrefixesTo(path, i) + {exact} == under + PrefixesTo(path, i + 1);
          dirs := dirs + {f};
        }
      } else {
        assert PrefixesTo(path, i + 1) == PrefixesTo(path, i);
      }
    }
    SpelledOnce(names + Prefixes(path), fold, spelling);
    ok := true;
  }

  // ---- the whole list --------------------------------------------------------------------------------------------

  /** What must hold of every list read so far. */
  ghost predicate Fine(files: seq<File>, limits: Limits, fold: string -> string) {
    DistinctPaths(files) && OneSpelling(AllPrefixes(files), fold) && WithinLimits(files, limits)
  }

  /** Adding one file to a fine list. */
  lemma FineNext(files: seq<File>, f: File, limits: Limits, fold: string -> string)
    ensures Fine(files + [f], limits, fold) <==>
      Fine(files, limits, fold) && (forall i :: 0 <= i < |files| ==> files[i].path != f.path)
      && OneSpelling(AllPrefixes(files) + Prefixes(f.path), fold)
      && (Skipped(f.path) || (Bytes(f) <= limits.maxFileBytes && Total(Kept(files)) + Bytes(f) <= limits.maxTotalBytes))
  {
    var more := files + [f];
    assert more[..|more| - 1] == files && more[|more| - 1] == f;
    assert AllPrefixes(more) == AllPrefixes(files) + Prefixes(f.path);
    hide AllPrefixes, Prefixes, Skipped;
    DistinctNext(files, f);
    LimitsNext(files, f, limits);
    hide DistinctPaths, WithinLimits, Kept, Total;
    if OneSpelling(AllPrefixes(files) + Prefixes(f.path), fold) { assert OneSpelling(AllPrefixes(files), fold); }
  }

  lemma DistinctNext(files: seq<File>, f: File)
    ensures DistinctPaths(files + [f]) <==>
      DistinctPaths(files) && forall i :: 0 <= i < |files| ==> files[i].path != f.path
  {
    var more := files + [f];
    assert forall i :: 0 <= i < |files| ==> more[i] == files[i];
    assert more[|files|] == f;
  }

  lemma LimitsNext(files: seq<File>, f: File, limits: Limits)
    ensures WithinLimits(files + [f], limits) <==>
      WithinLimits(files, limits)
      && (Skipped(f.path) || (Bytes(f) <= limits.maxFileBytes && Total(Kept(files)) + Bytes(f) <= limits.maxTotalBytes))
  {
    var more := files + [f];
    assert more[..|more| - 1] == files && more[|more| - 1] == f;
    var k := Kept(files);
    if Skipped(f.path) {
      assert Kept(more) == k;
    } else {
      assert Kept(more) == k + [f];
      assert (k + [f])[..|k|] == k && (k + [f])[|k|] == f;
      assert Total(k + [f]) == Total(k) + Bytes(f);
      assert forall i :: 0 <= i < |k| ==> (k + [f])[i] == k[i];
    }
  }

  /** A list that is not fine stays so however it goes on. */
  lemma {:induction false} FineShrinks(files: seq<File>, n: nat, limits: Limits, fold: string -> string)
    requires Fine(files, limits, fold) && n <= |files|
    ensures Fine(files[..n], limits, fold)
    decreases |files|
  {
    hide Fine;
    if n == |files| {
      assert files[..n] == files;
    } else {
      var m := |files| - 1;
      assert files == files[..m] + [files[m]];
      FineNext(files[..m], files[m], limits, fold);
      FineShrinks(files[..m], n, limits, fold);
      assert files[..m][..n] == files[..n];
    }
  }

  lemma FilesTo(siblings: seq<Sibling>, n: nat)
    requires n <= |siblings|
    ensures AllFiles(siblings)[..n] == AllFiles(siblings[..n])
  {}

  /** One entry that cannot be added, and the manifest is refused. */
  lemma NotAcceptable(info: Info, n: nat, limits: Limits, fold: string -> string)
    requires info.Info? && info.siblings.Some? && n <= |info.siblings.value|
    requires forall i :: 0 <= i < n ==> GoodEntry(info.siblings.value[i], limits)
    requires !Fine(AllFiles(info.siblings.value[..n]), limits, fold)
    ensures !Acceptable(info, limits, fold)
  {
    hide GoodEntry, NoFileIsDir;
    if Acceptable(info, limits, fold) {
      var files := AllFiles(info.siblings.value);
      FilesTo(info.siblings.value, n);
      FineShrinks(files, n, limits, fold);
    }
  }

  /** One entry of the outer loop; `files` are those before it. */
  method AddFile(f: File, limits: Limits, fold: string -> string, seen: set<string>, spelling0: map<string, string>,
                 dirs0: set<string>,
                 kept: seq<File>, total0: nat, ghost files: seq<File>)
    returns (ok: bool, spelling: map<string, string>, dirs: set<string>, total: nat)
    requires Fine(files, limits, fold) && kept == Kept(files) && total0 == Total(kept)
    requires forall p :: p in seen <==> exists i :: 0 <= i < |files| && files[i].path == p
    requires Spelled(AllPrefixes(files), fold, spelling0) && FoldsOf(AllDirectories(files), fold, dirs0)
    ensures ok <==> Fine(files + [f], limits, fold)
    ensures ok ==>
      Spelled(AllPrefixes(files) + Prefixes(f.path), fold, spelling)
        && FoldsOf(AllDirectories(files) + Directories(f.path), fold, dirs)
    ensures ok ==> total == if Skipped(f.path) then total0 else total0 + Bytes(f)
  {
    FineNext(files, f, limits, fold);
    assert total0 <= limits.maxTotalBytes;
    hide Fine, Spelled, FoldsOf, OneSpelling, AllPrefixes, AllDirectories, Prefixes, Directories, Kept, Total;
    spelling, dirs, total := spelling0, dirs0, total0;
    if f.path in seen { return false, spelling, dirs, total; }
    var good;
    good, spelling, dirs := AddPath(f.path, fold, spelling0, dirs0, AllPrefixes(files), AllDirectories(files));
    if !good { return false, spelling, dirs, total; }
    if Skipped(f.path) { return true, spelling, dirs, total; }
    if f.size.Some? {
      if f.size.value > limits.maxFileBytes { return false, spelling, dirs, total; }
      total := total + f.size.value;
      if total > limits.maxTotalBytes { return false, spelling, dirs, total; }
    }
    ok := true;
  }

  /** The last loop: a kept file must not fold to a directory. */
  method FilesAreNotDirs(kept: seq<File>, fold: string -> string, dirs: set<string>,
                         ghost files: seq<File>)
    returns (ok: bool)
    requires kept == Kept(files) && FoldsOf(AllDirectories(files), fold, dirs)
    ensures ok <==> NoFileIsDir(files, fold)
  {
    hide FoldsTo, Kept, AllDirectories;
    for i := 0 to |kept|
      invariant forall j :: 0 <= j < i ==> !FoldsTo(AllDirectories(files), fold, fold(kept[j].path))
    {
      if fold(kept[i].path) in dirs { return false; }
    }
    ok := true;
  }

  lemma TablesNext(files: seq<File>, f: File)
    ensures AllPrefixes(files + [f]) == AllPrefixes(files) + Prefixes(f.path)
    ensures AllDirectories(files + [f]) == AllDirectories(files) + Directories(f.path)
    ensures Kept(files + [f]) == Kept(files) + if Skipped(f.path) then [] else [f]
    ensures Total(files + [f]) == Total(files) + Bytes(f)
  {
    var more := files + [f];
    assert more[..|more| - 1] == files && more[|more| - 1] == f;
  }

  lemma NothingRead(limits: Limits, fold: string -> string)
    ensures Fine([], limits, fold) && Kept([]) == [] && Total([]) == 0
    ensures Spelled(AllPrefixes([]), fold, map[]) && FoldsOf(AllDirectories([]), fold, {})
  {}

  /**
   validateManifest: for every folding of names, a manifest is accepted exactly when it is acceptable, and what comes
   out is the commit and the kept files in order.
   */
  method ValidateManifest(info: Info, limits: Limits, fold: string -> string) returns (r: Result<Accepted>)
    ensures r.Ok? <==> Acceptable(info, limits, fold)
    ensures r.Ok? ==> r.value == Accepted(info.sha.value, Kept(AllFiles(info.siblings.value)))
  {
    hide GoodEntry, Fine, Spelled, FoldsOf, NoFileIsDir, AllPrefixes, AllDirectories, Prefixes, Directories, Kept,
      Total, Bytes, LowerHex, FileOf;
    if info.NotInfo? { return Refused; }
    if info.sha.None? || |info.sha.value| != 40 || !LowerHex(info.sha.value) { return Refused; }
    if info.siblings.None? { return Refused; }
    var siblings := info.siblings.value;
    if |siblings| > limits.maxFiles { return Refused; }
    var kept: seq<File>, seen: set<string>, total := [], {}, 0;
    var spelling: map<string, string>, dirs: set<string> := map[], {};
    ghost var files: seq<File> := [];
    NothingRead(limits, fold);
    assert siblings[..0] == [];
    for i := 0 to |siblings|
      invariant files == AllFiles(siblings[..i]) && Fine(files, limits, fold)
      invariant forall k :: 0 <= k < i ==> GoodEntry(siblings[k], limits)
      invariant kept == Kept(files) && total == Total(kept)
      invariant forall p :: p in seen <==> exists k :: 0 <= k < |files| && files[k].path == p
      invariant Spelled(AllPrefixes(files), fold, spelling) && FoldsOf(AllDirectories(files), fold, dirs)
    {
      var entry := CheckEntry(siblings[i], limits);
      if entry.Refused? { return Refused; }
      var f := entry.value;
      assert AllFiles(siblings[..i + 1]) == files + [f];
      var ok;
      ok, spelling, dirs, total := AddFile(f, limits, fold, seen, spelling, dirs, kept, total, files);
      if !ok { NotAcceptable(info, i + 1, limits, fold); return Refused; }
      TablesNext(files, f);
      TablesNext(kept, f);
      SeenNext(files, f, seen);
      seen := seen + {f.path};
      if !Skipped(f.path) { kept := kept + [f]; }
      files := files + [f];
    }
    assert siblings[..|siblings|] == siblings;
    FineParts(files, limits, fold);
    var apart := FilesAreNotDirs(kept, fold, dirs, files);
    if !apart { return Refused; }
    if kept == [] { return Refused; }
    r := Ok(Accepted(info.sha.value, kept));
  }

  lemma FineParts(files: seq<File>, limits: Limits, fold: string -> string)
    requires Fine(files, limits, fold)
    ensures DistinctPaths(files) && OneSpelling(AllPrefixes(files), fold) && WithinLimits(files, limits)
  {}

  lemma SeenNext(files: seq<File>, f: File, seen: set<string>)
    requires forall p :: p in seen <==> exists k :: 0 <= k < |files| && files[k].path == p
    ensures forall p :: p in seen + {f.path} <==> exists k :: 0 <= k < |files + [f]| && (files + [f])[k].path == p
  {
    var more := files + [f];
    forall p | p in seen + {f.path} ensures exists k :: 0 <= k < |more| && more[k].path == p {
      if p in seen {
        var k :| 0 <= k < |files| && files[k].path == p;
        assert more[k] == files[k];
      } else {
        assert more[|files|].path == p;
      }
    }
    forall k | 0 <= k < |more| ensures more[k].path in seen + {f.path} {
      if k < |files| { assert more[k] == files[k]; }
    }
  }

  // ---- what acceptance means for the disk ------------------------------------------------------------------------

  lemma {:induction false} InPrefixes(p: string, n: nat, x: string)
    requires n <= |p| + 1
    ensures x in PrefixesTo(p, n) <==> exists a :: 0 <= a < n && Cut(p, a) && p[..a] == x
  {
    if n == 0 {
    } else {
      InPrefixes(p, n - 1, x);
      if Cut(p, n - 1) && p[..n - 1] == x { assert 0 <= n - 1 < n; }
    }
  }

  lemma {:induction false} InAll(files: seq<File>, i: nat)
    requires i < |files|
    ensures Prefixes(files[i].path) <= AllPrefixes(files) && Directories(files[i].path) <= AllDirectories(files)
    decreases |files|
  {
    hide Prefixes, Directories;
    if i < |files| - 1 { InAll(files[..|files| - 1], i); }
  }

  /**
   In an accepted manifest any two path prefixes (directories or files) that fold alike are the same string, and no
   kept file folds to a directory of any entry: on a case-insensitive filesystem no two entries share a name.
   */
  lemma NoAliases(info: Info, limits: Limits, fold: string -> string, i: nat, a: nat, j: nat, b: nat, k: nat)
    requires Acceptable(info, limits, fold)
    requires var files := AllFiles(info.siblings.value);
      i < |files| && j < |files| && Cut(files[i].path, a) && Cut(files[j].path, b)
    ensures var files := AllFiles(info.siblings.value);
      && (fold(files[i].path[..a]) == fold(files[j].path[..b]) ==> files[i].path[..a] == files[j].path[..b])
      && (k < |Kept(files)| && b < |files[j].path| ==> fold(Kept(files)[k].path) != fold(files[j].path[..b]))
  {
    hide GoodEntry, Kept;
    var files := AllFiles(info.siblings.value);
    InAll(files, i);
    InAll(files, j);
    InPrefixes(files[i].path, |files[i].path| + 1, files[i].path[..a]);
    InPrefixes(files[j].path, |files[j].path| + 1, files[j].path[..b]);
    if b < |files[j].path| { InPrefixes(files[j].path, |files[j].path|, files[j].path[..b]); }
    hide AllPrefixes, AllDirectories, PrefixesTo;
    if k < |Kept(files)| && b < |files[j].path| {
      assert !FoldsTo(AllDirectories(files), fold, fold(Kept(files)[k].path));
    }
  }

  lemma {:induction false} PartsJoin(p: string)
    ensures forall k :: 0 <= k < |Parts(p)| ==> '/' !in Parts(p)[k]
    ensures Join(Parts(p)) == p
  {
    if p == "" {
    } else if p[0] == '/' {
      PartsJoin(p[1..]);
      assert ([""] + Parts(p[1..]))[1..] == Parts(p[1..]);
      assert p == "/" + p[1..];
    } else {
      PartsJoin(p[1..]);
      var rest := Parts(p[1..]);
      var all := [[p[0]] + rest[0]] + rest[1..];
      assert all[1..] == rest[1..];
      assert p == [p[0]] + p[1..];
      assert forall k :: 1 <= k < |all| ==> all[k] == rest[k];
    }
  }

  /** parts.join('/'). */
  function Join(parts: seq<string>): string
    requires parts != []
  {
    if |parts| == 1 then parts[0] else parts[0] + "/" + Join(parts[1..])
  }
}
