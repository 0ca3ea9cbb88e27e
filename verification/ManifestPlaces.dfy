/**
 Where the files of an accepted manifest land (src/hf.ts:84-173): each path names the place it spells, below the
 directory it is written to, and no two files, nor a file and a directory, share one.
 */
module ManifestPlaces {
  import opened Options
  import opened Manifest

  // ---- a path names the place it spells --------------------------------------------------------------------------

  /** The components a path leads to: empty ones and "." stay, ".." goes up, and nothing is above the root. */
  function Resolve(at: seq<string>, parts: seq<string>): Option<seq<string>>
    decreases |parts|
  {
    if parts == [] then Some(at)
    else if parts[0] == "" || parts[0] == "." then Resolve(at, parts[1..])
    else if parts[0] == ".." then (if at == [] then None else Resolve(at[..|at| - 1], parts[1..]))
    else Resolve(at + [parts[0]], parts[1..])
  }

  /** Windows drops dots and spaces at the end of a name. */
  function Stripped(x: string): string {
    if x != "" && (x[|x| - 1] == '.' || x[|x| - 1] == ' ') then Stripped(x[..|x| - 1]) else x
  }

  /** The name before its first dot. */
  function Stem(x: string): string {
    if x == "" || x[0] == '.' then "" else [x[0]] + Stem(x[1..])
  }

  predicate SameAscii(c: char, d: char) { c == d || ('A' <= c <= 'Z' && d as int == c as int + 32) }

  /** s spells t, in any case. */
  predicate Spells(s: string, t: string) { |s| == |t| && forall k :: 0 <= k < |s| ==> SameAscii(s[k], t[k]) }

  /** A device of Windows: con, prn, aux, nul, or com or lpt with a digit. */
  predicate IsDevice(s: string) {
    || Spells(s, "con") || Spells(s, "prn") || Spells(s, "aux") || Spells(s, "nul")
    || (|s| == 4 && (Spells(s[..3], "com") || Spells(s[..3], "lpt")) && '0' <= s[3] <= '9')
  }

  predicate OneLine(x: string) { forall c :: c in x ==> c !in {'\n', '\r', '\U{2028}', '\U{2029}'} }

  lemma {:induction false} StemIs(x: string)
    ensures |Stem(x)| <= |x| && Stem(x) == x[..|Stem(x)|] && '.' !in Stem(x)
    ensures |Stem(x)| < |x| ==> x[|Stem(x)|] == '.'
  {
    if x == "" || x[0] == '.' {
    } else {
      StemIs(x[1..]);
    }
  }

  lemma LowerIs(s: string, t: string)
    requires forall k :: 0 <= k < |t| ==> 'a' <= t[k] <= 'z'
    ensures LowerAscii(s) == t <==> Spells(s, t)
  {
    var l := LowerAscii(s);
    assert forall k :: 0 <= k < |s| ==> l[k] == if 'A' <= s[k] <= 'Z' then s[k] - 'A' + 'a' else s[k];
    if Spells(s, t) {
      assert forall k :: 0 <= k < |s| ==> l[k] == t[k];
    }
  }

  lemma LowerLine(x: string, n: nat)
    requires n <= |x| && OneLine(x)
    ensures Extension(LowerAscii(x)[n..]) <==> n == |x| || x[n] == '.'
  {
    var l := LowerAscii(x);
    assert forall k :: 0 <= k < |x| ==> l[k] == if 'A' <= x[k] <= 'Z' then x[k] - 'A' + 'a' else x[k];
    forall k | 0 <= k < |x| - n ensures l[n..][k] !in {'\n', '\r', '\U{2028}', '\U{2029}'} {
      assert l[n..][k] == l[n + k] && x[n + k] in x;
    }
  }

  /** A word of letters, then nothing or a dot: the stem is that word. */
  lemma StemSpells(x: string, w: string)
    requires OneLine(x) && forall k :: 0 <= k < |w| ==> 'a' <= w[k] <= 'z'
    ensures |x| >= |w| && LowerAscii(x)[..|w|] == w && Extension(LowerAscii(x)[|w|..]) <==> Spells(Stem(x), w)
  {
    hide Stem, Extension;
    StemIs(x);
    if |x| >= |w| {
      LowerLine(x, |w|);
      LowerIs(x[..|w|], w);
      assert LowerAscii(x)[..|w|] == LowerAscii(x[..|w|]);
      if Spells(x[..|w|], w) && (|w| == |x| || x[|w|] == '.') {
        SpelledPlainly(x, w);
        StemEnds(x, |w|);
      }
    }
  }

  lemma SpelledPlainly(x: string, w: string)
    requires |w| <= |x| && Spells(x[..|w|], w) && forall k :: 0 <= k < |w| ==> 'a' <= w[k] <= 'z'
    ensures forall k :: 0 <= k < |w| ==> x[k] != '.'
  {
    forall k | 0 <= k < |w| ensures x[k] != '.' {
      assert SameAscii(x[..|w|][k], w[k]);
    }
  }

  lemma {:induction false} StemEnds(x: string, n: nat)
    requires n <= |x| && (n == |x| || x[n] == '.') && forall k :: 0 <= k < n ==> x[k] != '.'
    ensures Stem(x) == x[..n]
  {
    if n == 0 {
    } else {
      StemEnds(x[1..], n - 1);
      assert x[..n] == [x[0]] + x[1..][..n - 1];
    }
  }

  lemma StemNumbered(x: string, w: string)
    requires OneLine(x) && |w| == 3 && forall k :: 0 <= k < |w| ==> 'a' <= w[k] <= 'z'
    ensures |x| >= 4 && LowerAscii(x)[..3] == w && AsciiDigit(LowerAscii(x)[3]) && Extension(LowerAscii(x)[4..])
      <==> |Stem(x)| == 4 && Spells(Stem(x)[..3], w) && '0' <= Stem(x)[3] <= '9'
  {
    StemIs(x);
    if |x| >= 4 {
      LowerLine(x, 4);
      LowerIs(x[..3], w);
      var l := LowerAscii(x);
      assert l[..3] == LowerAscii(x[..3]);
      assert l[3] == if 'A' <= x[3] <= 'Z' then x[3] - 'A' + 'a' else x[3];
      if Spells(x[..3], w) {
        assert forall k :: 0 <= k < 3 ==> x[k] == x[..3][k] && x[k] != '.';
      }
      if |Stem(x)| == 4 { assert Stem(x)[..3] == x[..3]; }
    }
  }

  /** A name is taken for a device exactly when it is on one line and what comes before its first dot is one. */
  lemma DeviceExact(x: string)
    ensures Device(x) <==> OneLine(x) && IsDevice(Stem(x))
  {
    if OneLine(x) {
      StemSpells(x, "con");
      StemSpells(x, "prn");
      StemSpells(x, "aux");
      StemSpells(x, "nul");
      StemNumbered(x, "com");
      StemNumbered(x, "lpt");
      hide Stem, Spells, Extension, LowerAscii, OneLine;
    } else if Device(x) {
      DeviceLine(x);
      assert false;
    }
  }

  lemma DeviceLine(x: string)
    requires Device(x)
    ensures OneLine(x)
  {
    var l := LowerAscii(x);
    assert forall k :: 0 <= k < |x| ==> l[k] == if 'A' <= x[k] <= 'Z' then x[k] - 'A' + 'a' else x[k];
    var n := if |l| >= 3 && l[..3] in {"con", "prn", "aux", "nul"} && Extension(l[3..]) then 3 else 4;
    forall k | 0 <= k < |x| ensures x[k] !in {'\n', '\r', '\U{2028}', '\U{2029}'} {
      if k < 3 {
        assert l[..3][k] == l[k];
      } else if k >= n {
        assert l[n..][k - n] == l[k];
      }
    }
  }

  lemma {:induction false} ResolvesPlainly(at: seq<string>, parts: seq<string>)
    requires forall k :: 0 <= k < |parts| ==> parts[k] != "" && parts[k] != "." && parts[k] != ".."
    ensures Resolve(at, parts) == Some(at + parts)
    decreases |parts|
  {
    if parts == [] {
      assert at + [] == at;
    } else {
      assert forall k :: 0 <= k < |parts[1..]| ==> parts[1..][k] == parts[k + 1];
      ResolvesPlainly(at + [parts[0]], parts[1..]);
      assert at + [parts[0]] + parts[1..] == at + parts;
    }
  }

  /** Going nowhere or up makes the way shorter than its spelling. */
  lemma {:induction false} ResolveLength(at: seq<string>, parts: seq<string>)
    ensures Resolve(at, parts).Some? ==> |Resolve(at, parts).value| <= |at| + |parts|
    ensures Resolve(at, parts).Some? && |Resolve(at, parts).value| == |at| + |parts| ==>
      forall k :: 0 <= k < |parts| ==> parts[k] != "" && parts[k] != "." && parts[k] != ".."
    decreases |parts|
  {
    if parts == [] {
    } else if parts[0] == "" || parts[0] == "." {
      ResolveLength(at, parts[1..]);
    } else if parts[0] == ".." {
      if at != [] { ResolveLength(at[..|at| - 1], parts[1..]); }
    } else {
      ResolveLength(at + [parts[0]], parts[1..]);
      assert forall k :: 0 < k < |parts| ==> parts[k] == parts[1..][k - 1];
    }
  }

  /** A character that every filesystem takes: no control, and none that separates, quotes or globs. */
  predicate Plain(c: char) { ' ' <= c && !('\U{7f}' <= c <= '\U{9f}') && c !in "\\:<>\"|?*" }

  /** A component that stays as it is spelled: nothing to strip, and no device. */
  predicate Stays(x: string) { Stripped(x) == x && !(OneLine(x) && IsDevice(Stem(x))) }

  lemma {:induction false} StrippedShorter(x: string)
    ensures |Stripped(x)| <= |x|
    ensures Stripped(x) == x <==> x == "" || (x[|x| - 1] != '.' && x[|x| - 1] != ' ')
  {
    if x != "" && (x[|x| - 1] == '.' || x[|x| - 1] == ' ') {
      StrippedShorter(x[..|x| - 1]);
    } else {
    }
  }

  predicate Component(x: string) { x != "" && x != "." && x != ".." }

  lemma GoodPartExact(x: string)
    ensures GoodPart(x) <==> Component(x) && Stays(x)
  {
    StrippedShorter(x);
    DeviceExact(x);
    hide Device, IsDevice, OneLine, Stem, Stripped;
  }

  lemma PlainIsGood(c: char)
    ensures Plain(c) <==> GoodChar(c)
  {}

  /**
   Exactly these paths are accepted: of plain characters, resolving below the directory to the very components they
   spell, at most maxDepth of them, each of which stays as it is spelled.
   */
  lemma PathExact(p: string, limits: Limits)
    ensures GoodPath(p, limits) <==>
      && Resolve([], Parts(p)) == Some(Parts(p))
      && |Parts(p)| <= limits.maxDepth
      && (forall c :: c in p ==> Plain(c))
      && forall k :: 0 <= k < |Parts(p)| ==> Stays(Parts(p)[k])
  {
    forall c ensures Plain(c) <==> GoodChar(c) { PlainIsGood(c); }
    forall x ensures GoodPart(x) <==> Component(x) && Stays(x) { GoodPartExact(x); }
    hide Plain, GoodChar, GoodPart, Stays;
    ResolveLength([], Parts(p));
    if forall k :: 0 <= k < |Parts(p)| ==> Component(Parts(p)[k]) {
      ResolvesPlainly([], Parts(p));
      assert [] + Parts(p) == Parts(p);
    }
    hide Resolve;
    assert p == "" || p[0] == '/' ==> Parts(p)[0] == "";
    hide Parts;
    assert (forall c :: c in p ==> Plain(c)) <==> forall i :: 0 <= i < |p| ==> GoodChar(p[i]);
  }

  /** So no component of an accepted path holds a separator of either kind, a drive or a stream. */
  lemma PathStaysInside(p: string, limits: Limits, k: nat, c: char)
    requires GoodPath(p, limits) && k < |Parts(p)| && c in Parts(p)[k]
    ensures c != '/' && c != '\\' && c != ':' && ' ' <= c
  {
    PartsJoin(p);
    PartChars(p, k, c);
  }

  lemma {:induction false} PartChars(p: string, k: nat, c: char)
    requires k < |Parts(p)| && c in Parts(p)[k]
    ensures c in p
  {
    if p == "" {
    } else if p[0] == '/' {
      PartChars(p[1..], k - 1, c);
    } else {
      var rest := Parts(p[1..]);
      assert Parts(p) == [[p[0]] + rest[0]] + rest[1..];
      if k == 0 {
        if c != p[0] { PartChars(p[1..], 0, c); }
      } else {
        assert Parts(p)[k] == rest[k];
        PartChars(p[1..], k, c);
      }
    }
  }

  // ---- no place is shared ------------------------------------------------------------------------------------------

  lemma {:induction false} JoinSplit(a: seq<string>, b: seq<string>)
    requires a != [] && b != []
    ensures Join(a + b) == Join(a) + "/" + Join(b)
  {
    var all := a + b;
    if |a| == 1 {
      assert all[0] == a[0] && all[1..] == b;
    } else {
      assert all[0] == a[0] && all[1..] == a[1..] + b;
      JoinSplit(a[1..], b);
      assert a[0] + "/" + (Join(a[1..]) + "/" + Join(b)) == a[0] + "/" + Join(a[1..]) + "/" + Join(b);
    }
  }

  /** The place of x is that of y or above it: then x is y, or a directory on the way to it. */
  lemma PlaceAbove(x: string, y: string)
    requires Parts(x) <= Parts(y)
    ensures x == y || (|x| < |y| && y[..|x|] == x && Cut(y, |x|))
  {
    PartsJoin(x);
    PartsJoin(y);
    hide Join, Parts;
    var a, b := Parts(x), Parts(y)[|Parts(x)|..];
    assert Parts(y) == a + b;
    if b == [] {
      assert a + b == a;
    } else {
      JoinSplit(a, b);
      SlashCut(x, Join(b), y);
    }
  }

  lemma SlashCut(x: string, r: string, y: string)
    requires y == x + "/" + r
    ensures |x| < |y| && y[..|x|] == x && Cut(y, |x|)
  {}

  /** The kept files come from the entries, in order, all of them but .gitattributes. */
  lemma {:induction false} KeptExact(files: seq<File>, f: File)
    ensures f in Kept(files) <==> f in files && f.path != ".gitattributes"
    decreases |files|
  {
    if files == [] {
    } else {
      KeptExact(files[..|files| - 1], f);
      assert files == files[..|files| - 1] + [files[|files| - 1]];
    }
  }

  /**
   In an accepted manifest no kept file lands where another entry does, or on the way to it: neither is the other, nor a
   directory of the other.
   */
  lemma PlacesApart(info: Info, limits: Limits, fold: string -> string, f: File, g: File)
    requires Acceptable(info, limits, fold)
    requires var files := AllFiles(info.siblings.value); f in Kept(files) && g in files && f != g
    ensures !(Parts(f.path) <= Parts(g.path))
  {
    hide GoodEntry, OneSpelling, WithinLimits;
    var files := AllFiles(info.siblings.value);
    if Parts(f.path) <= Parts(g.path) {
      PlaceAbove(f.path, g.path);
      KeptExact(files, f);
      var i :| 0 <= i < |files| && files[i] == f;
      var j :| 0 <= j < |files| && files[j] == g;
      assert f.path != g.path;
      NoAliasesAt(info, limits, fold, f, j);
      assert false;
    }
  }

  lemma NoAliasesAt(info: Info, limits: Limits, fold: string -> string, f: File, j: nat)
    requires Acceptable(info, limits, fold)
    requires var files := AllFiles(info.siblings.value);
      f in Kept(files) && j < |files| && |f.path| < |files[j].path| && Cut(files[j].path, |f.path|)
    ensures AllFiles(info.siblings.value)[j].path[..|f.path|] != f.path
  {
    hide GoodEntry, OneSpelling, WithinLimits, NoFileIsDir, Kept;
    var files := AllFiles(info.siblings.value);
    var k :| 0 <= k < |Kept(files)| && Kept(files)[k] == f;
    NoAliases(info, limits, fold, j, |f.path|, j, |f.path|, k);
  }

  // ---- which manifests are accepted, entry by entry --------------------------------------------------------------

  predicate HexDigits(s: string, n: nat) { |s| == n && forall c :: c in s ==> '0' <= c <= '9' || 'a' <= c <= 'f' }

  /** An entry declares this size, in its own field or that of its lfs record. */
  predicate Declares(s: Sibling, n: nat) {
    s.Sibling? && (s.size == Size(n) || (s.lfs.Lfs? && s.lfs.size == Size(n)))
  }

  /** No field of the entry has the wrong type. */
  predicate WellTyped(s: Sibling) {
    && s.Sibling? && s.rfilename.Some? && !s.size.BadSize? && !s.lfs.BadLfs?
    && (s.lfs.Lfs? ==> !s.lfs.sha.BadSha? && !s.lfs.size.BadSize?)
  }

  /**
   An entry passes exactly when it is well typed, its path is accepted, it declares at most one size, and its digest, if
   it has one, is 64 lower-case hexadecimal digits.
   */
  lemma EntryExact(s: Sibling, limits: Limits)
    ensures GoodEntry(s, limits) <==>
      && WellTyped(s)
      && GoodPath(s.rfilename.value, limits)
      && (forall m, n :: Declares(s, m) && Declares(s, n) ==> m == n)
      && (s.lfs.Lfs? && s.lfs.sha.Sha? ==> HexDigits(s.lfs.sha.hex, 64))
  {
    hide GoodPath;
    if WellTyped(s) {
      if s.lfs.Lfs? && s.lfs.sha.Sha? { HexIsHex(s.lfs.sha.hex); }
      hide LowerHex, HexDigits;
      if s.size.Size? && s.lfs.Lfs? && s.lfs.size.Size? {
        assert Declares(s, s.size.bytes) && Declares(s, s.lfs.size.bytes);
      }
    }
  }

  lemma HexIsHex(h: string)
    ensures HexDigits(h, |h|) <==> LowerHex(h)
  {
    assert forall i :: 0 <= i < |h| ==> h[i] in h;
  }

  /** The file of an accepted entry has the size it declares and the digest it carries. */
  lemma FileExact(s: Sibling, limits: Limits, n: nat, h: string)
    requires GoodEntry(s, limits)
    ensures var f := FileOf(s);
      && f.path == s.rfilename.value
      && (f.size == Some(n) <==> Declares(s, n))
      && (f.sha256 == Some(h) <==> s.lfs.Lfs? && s.lfs.sha == Sha(h))
  {
    hide GoodPath;
  }

  /** Position a ends a directory of the path, or the path. */
  predicate Stop(p: string, a: nat) { a == |p| || (a < |p| && p[a] == '/') }

  /** x is the path up to the stop at a. */
  predicate Ends(p: string, a: nat, x: string) { Stop(p, a) && p[..a] == x }

  /** Some file has a prefix x, or a directory x. */
  ghost predicate HasPrefix(files: seq<File>, x: string) {
    exists i: nat, a: nat :: i < |files| && Ends(files[i].path, a, x)
  }

  ghost predicate HasDirectory(files: seq<File>, x: string) {
    exists i: nat, a: nat :: i < |files| && Ends(files[i].path, a, x) && a < |files[i].path|
  }

  lemma PrefixIs(p: string, x: string)
    ensures x in Prefixes(p) <==> exists a: nat :: Ends(p, a, x)
    ensures x in Directories(p) <==> exists a: nat :: Ends(p, a, x) && a < |p|
  {
    InPrefixes(p, |p| + 1, x);
    InPrefixes(p, |p|, x);
    hide PrefixesTo;
    if x in Prefixes(p) {
      var a: nat :| a < |p| + 1 && Cut(p, a) && p[..a] == x;
      assert Ends(p, a, x);
    }
    if x in Directories(p) {
      var a: nat :| a < |p| && Cut(p, a) && p[..a] == x;
      assert Ends(p, a, x);
    }
    forall a: nat | Ends(p, a, x) ensures x in Prefixes(p) && (a < |p| ==> x in Directories(p)) {
      assert Cut(p, a);
    }
  }

  lemma HasMore(files: seq<File>, x: string)
    requires files != []
    ensures var n := |files| - 1; var p := files[n].path;
      && (HasPrefix(files, x) <==> HasPrefix(files[..n], x) || exists a: nat :: Ends(p, a, x))
      && (HasDirectory(files, x) <==> HasDirectory(files[..n], x) || exists a: nat :: Ends(p, a, x) && a < |p|)
  {
    var n := |files| - 1;
    hide Ends;
    assert forall i :: 0 <= i < n ==> files[..n][i] == files[i];
  }

  lemma {:induction false} InAllExactly(files: seq<File>, x: string)
    ensures x in AllPrefixes(files) <==> HasPrefix(files, x)
    ensures x in AllDirectories(files) <==> HasDirectory(files, x)
    decreases |files|
  {
    if files == [] {
    } else {
      var n := |files| - 1;
      InAllExactly(files[..n], x);
      PrefixIs(files[n].path, x);
      HasMore(files, x);
      hide HasPrefix, HasDirectory, Prefixes, Directories;
    }
  }

  /** Sum of the sizes of the files other than .gitattributes; an undeclared size counts as nothing. */
  function Sum(files: seq<File>): nat {
    if files == [] then 0
    else
      Sum(files[..|files| - 1])
      + (var f := files[|files| - 1]; if f.path != ".gitattributes" && f.size.Some? then f.size.value else 0)
  }

  lemma {:induction false} SumIs(files: seq<File>)
    ensures Total(Kept(files)) == Sum(files)
    decreases |files|
  {
    if files == [] {
    } else {
      var n := |files| - 1;
      SumIs(files[..n]);
      assert files == files[..n] + [files[n]];
      TablesNext(files[..n], files[n]);
      TablesNext(Kept(files[..n]), files[n]);
      assert Kept(files[..n]) + [] == Kept(files[..n]);
    }
  }

  /** Cut at any two stops, paths that fold alike are spelled alike. */
  ghost predicate NoCollision(files: seq<File>, fold: string -> string) {
    forall x, y :: HasPrefix(files, x) && HasPrefix(files, y) && fold(x) == fold(y) ==> x == y
  }

  /** No file but .gitattributes folds to a directory of any path. */
  ghost predicate NoOverlap(files: seq<File>, fold: string -> string) {
    forall f, d :: f in files && f.path != ".gitattributes" && HasDirectory(files, d) ==> fold(f.path) != fold(d)
  }

  ghost predicate SmallEnough(files: seq<File>, limits: Limits) {
    && (forall f :: f in files && f.path != ".gitattributes" && f.size.Some? ==> f.size.value <= limits.maxFileBytes)
    && Sum(files) <= limits.maxTotalBytes
  }

  lemma NoCollisionIs(files: seq<File>, fold: string -> string)
    ensures OneSpelling(AllPrefixes(files), fold) <==> NoCollision(files, fold)
  {
    forall x ensures x in AllPrefixes(files) <==> HasPrefix(files, x) { InAllExactly(files, x); }
    hide AllPrefixes, HasPrefix;
  }

  lemma NoOverlapIs(files: seq<File>, fold: string -> string)
    ensures NoFileIsDir(files, fold) <==> NoOverlap(files, fold)
  {
    forall x ensures x in AllDirectories(files) <==> HasDirectory(files, x) { InAllExactly(files, x); }
    forall f ensures f in Kept(files) <==> f in files && f.path != ".gitattributes" { KeptExact(files, f); }
    hide AllDirectories, HasDirectory, Kept;
    if NoFileIsDir(files, fold) {
      forall f, d | f in files && f.path != ".gitattributes" && HasDirectory(files, d)
        ensures fold(f.path) != fold(d)
      {
        var k :| 0 <= k < |Kept(files)| && Kept(files)[k] == f;
        assert !FoldsTo(AllDirectories(files), fold, fold(Kept(files)[k].path));
      }
    }
    if NoOverlap(files, fold) {
      forall k | 0 <= k < |Kept(files)|
        ensures !FoldsTo(AllDirectories(files), fold, fold(Kept(files)[k].path))
      {
        assert Kept(files)[k] in Kept(files);
      }
    }
  }

  lemma SmallEnoughIs(files: seq<File>, limits: Limits)
    ensures WithinLimits(files, limits) <==> SmallEnough(files, limits)
  {
    SumIs(files);
    forall f ensures f in Kept(files) <==> f in files && f.path != ".gitattributes" { KeptExact(files, f); }
    hide Kept, Sum, Total;
    if WithinLimits(files, limits) {
      forall f | f in files && f.path != ".gitattributes" && f.size.Some?
        ensures f.size.value <= limits.maxFileBytes
      {
        var k :| 0 <= k < |Kept(files)| && Kept(files)[k] == f;
      }
    }
    if SmallEnough(files, limits) {
      forall k | 0 <= k < |Kept(files)| ensures Bytes(Kept(files)[k]) <= limits.maxFileBytes {
        assert Kept(files)[k] in Kept(files);
      }
    }
  }

  /** Different paths, no collisions, no overlaps, within the limits. */
  ghost predicate Coexist(files: seq<File>, limits: Limits, fold: string -> string) {
    && (forall i, j :: 0 <= i < j < |files| ==> files[i].path != files[j].path)
    && NoCollision(files, fold) && NoOverlap(files, fold) && SmallEnough(files, limits)
  }

  lemma CoexistIs(files: seq<File>, limits: Limits, fold: string -> string)
    ensures Coexist(files, limits, fold) <==>
      DistinctPaths(files) && OneSpelling(AllPrefixes(files), fold) && WithinLimits(files, limits)
        && NoFileIsDir(files, fold)
  {
    NoCollisionIs(files, fold);
    NoOverlapIs(files, fold);
    SmallEnoughIs(files, limits);
    hide NoCollision, NoOverlap, SmallEnough, OneSpelling, NoFileIsDir, WithinLimits;
  }

  /** An entry to be kept. */
  predicate Counts(s: Sibling) { s.Sibling? && s.rfilename != Some(".gitattributes") }

  /**
   Exactly these manifests are accepted: a commit of 40 lower-case hexadecimal digits; entries that each pass, no more
   than maxFiles, of different paths, at least one of them not .gitattributes; no two paths that collide anywhere on
   their way, no file where another path has a directory; and sizes within the limits.
   */
  lemma AcceptedExactly(info: Info, limits: Limits, fold: string -> string)
    ensures Acceptable(info, limits, fold) <==>
      && info.Info? && info.sha.Some? && HexDigits(info.sha.value, 40)
      && info.siblings.Some? && |info.siblings.value| <= limits.maxFiles
      && (forall s :: s in info.siblings.value ==> GoodEntry(s, limits))
      && (exists s :: s in info.siblings.value && Counts(s))
      && Coexist(AllFiles(info.siblings.value), limits, fold)
  {
    if info.Info? && info.sha.Some? && info.siblings.Some? {
      HexIsHex(info.sha.value);
      var siblings := info.siblings.value;
      CoexistIs(AllFiles(siblings), limits, fold);
      hide Coexist, DistinctPaths, OneSpelling, NoFileIsDir, WithinLimits, LowerHex, HexDigits, Counts;
      if forall s :: s in siblings ==> GoodEntry(s, limits) { ManifestPaths(siblings, limits); }
      hide GoodEntry, Kept;
    }
  }

  lemma ManifestPaths(siblings: seq<Sibling>, limits: Limits)
    requires forall s :: s in siblings ==> GoodEntry(s, limits)
    ensures Kept(AllFiles(siblings)) != [] <==>
      exists s :: s in siblings && Counts(s)
  {
    var files := AllFiles(siblings);
    forall i | 0 <= i < |siblings|
      ensures siblings[i].Sibling? && siblings[i].rfilename == Some(files[i].path)
    {
      assert siblings[i] in siblings;
    }
    if Kept(files) != [] {
      KeptExact(files, Kept(files)[0]);
      var i :| 0 <= i < |files| && files[i] == Kept(files)[0];
      assert siblings[i] in siblings && Counts(siblings[i]);
    }
    if s :| s in siblings && Counts(s) {
      var i :| 0 <= i < |siblings| && siblings[i] == s;
      KeptExact(files, files[i]);
      assert files[i] in files;
    }
  }
}
