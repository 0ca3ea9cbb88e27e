/**
 One imported repository on disk (src/versions.ts, src/hf.ts:525-660, src/node.ts:514-566, 580-630) and the
 sequences of disk effects an import and a recovery carry out.  Every effect is atomic (a rename, an unlink,
 a transaction on shares.json); a crash stops a sequence after any of them.
 */
module VersionDisk {
  import opened Options

  type Version = string
  type Ih = string

  /** current.json: the promoted version and the infohash of its share. */
  datatype Pointer = Pointer(version: Version, ih: Ih)

  /** `dirs` gives the infohash the present content of every version directory would seed under. */
  datatype Disk = Disk(
    ptr: Option<Pointer>,
    link: Option<Version>,
    share: Option<Ih>,
    pending: set<Version>,
    records: set<Version>,
    dirs: map<Version, Ih>)

  datatype Effect =
    | WritePending(v: Version)
    | RmPending(v: Version)
    | WriteRecord(v: Version)
    | RmRecord(v: Version)
    | WriteShare(share: Option<Ih>)
    | WritePointer(ptr: Pointer)
    | RmPointer
    | SetLink(v: Version)
    | Content(v: Version, ih: Ih)   // the directory exists with this content: staging, and every part of a removal
    | RmDir(v: Version)

  function Apply(d: Disk, e: Effect): Disk {
    match e
    case WritePending(v) => d.(pending := d.pending + {v})
    case RmPending(v) => d.(pending := d.pending - {v})
    case WriteRecord(v) => d.(records := d.records + {v})
    case RmRecord(v) => d.(records := d.records - {v})
    case WriteShare(s) => d.(share := s)
    case WritePointer(p) => d.(ptr := Some(p))
    case RmPointer => d.(ptr := None)
    case SetLink(v) => d.(link := Some(v))
    case Content(v, ih) => d.(dirs := d.dirs[v := ih])
    case RmDir(v) => d.(dirs := d.dirs - {v})
  }

  function Run(d: Disk, es: seq<Effect>): Disk
    decreases es
  {
    if es == [] then d else Run(Apply(d, es[0]), es[1..])
  }

  lemma {:induction false} RunAppend(d: Disk, es: seq<Effect>, fs: seq<Effect>)
    ensures Run(d, es + fs) == Run(Run(d, es), fs)
    decreases es
  {
    if es == [] {
      assert es + fs == fs;
    } else {
      assert (es + fs)[0] == es[0] && (es + fs)[1..] == es[1..] + fs;
      RunAppend(Apply(d, es[0]), es[1..], fs);
    }
  }

  // ---- pruneVersions (src/versions.ts:108-133) ------------------------------------------------------

  /** What the environment decides: which directories back live torrents, what a half-removed directory holds. */
  datatype World = World(live: set<Version>, junk: Ih)

  /** Directories to keep, in progress, journaled or backing a live torrent stay; a removal is not atomic. */
  predicate Spares(d: Disk, keep: set<Version>, w: World, v: Version) {
    v in keep || v in w.live || v in d.records || v in d.pending
  }

  function Prune(d: Disk, listing: seq<Version>, keep: set<Version>, w: World): seq<Effect> {
    if listing == [] then []
    else
      (if Spares(d, keep, w, listing[0]) then [] else [Content(listing[0], w.junk), RmDir(listing[0])])
      + Prune(d, listing[1..], keep, w)
  }

  // ---- importLocked (src/hf.ts:525-660) --------------------------------------------------------------

  /** How publishing ends: refused before or after the share record, cancelled after it, or published. */
  datatype Publish = Refused(recorded: bool) | Cancelled | Published

  /** Staging: the directory appears, a stale journal entry goes, the staging record and at last the whole content. */
  function Stage(v: Version, ih: Ih, partial: Ih): seq<Effect> {
    [Content(v, partial), RmPending(v), WriteRecord(v), Content(v, ih)]
  }

  /** prepareShare persists the share before publishing, and on failure restores the previous one. */
  function Promote(d: Disk, v: Version, ih: Ih, how: Publish, listing: seq<Version>, w: World): seq<Effect> {
    [WritePending(v)] +
    match how
    case Refused(recorded) =>
      (if recorded then [WriteShare(Some(ih))] else [])
      + [WriteShare(d.share), Content(v, w.junk), RmDir(v), RmRecord(v)]
    case Cancelled => [WriteShare(Some(ih)), WriteShare(d.share), RmPending(v)]
    case Published =>
      [WriteShare(Some(ih))] +
      if d.ptr.Some? && d.ptr.value.ih == ih then
        [RmPending(v), RmRecord(v)]
        + (if v in w.live then [] else [Content(v, w.junk), RmDir(v)])
        + [WriteShare(Some(ih))]
      else
        [WritePointer(Pointer(v, ih)), SetLink(v), RmPending(v), RmRecord(v)]
        + Prune(d.(records := d.records - {v}, pending := d.pending - {v}), listing, {v}, w)
  }

  function Import(d: Disk, v: Version, ih: Ih, partial: Ih, how: Publish, listing: seq<Version>,
                  w: World): seq<Effect> {
    if d.ptr.Some? && d.ptr.value.version == v then
      (if v in d.dirs then [WriteShare(Some(d.dirs[v]))] else [])   // already promoted: share it again
    else
      var s := Stage(v, ih, partial);
      s + Promote(Run(d, s), v, ih, how, listing, w)
  }

  // ---- recoverVersions and recoverImports (src/versions.ts:152-203, src/node.ts:548-566) -----------------

  /** One journaled promotion: already committed, completed, or abandoned. */
  function JournalStep(d: Disk, v: Version): seq<Effect> {
    if v !in d.pending then []
    else if d.ptr.Some? && d.ptr.value.version == v then [RmPending(v)]
    else if d.share.Some? && d.ptr.None? then [WritePointer(Pointer(v, d.share.value)), RmPending(v)]
    else [RmPending(v)]
  }

  /** Abandoning a promotion whose share is not the pointer's drops that share. */
  predicate Drops(d: Disk, v: Version) {
    v in d.pending && d.ptr.Some? && d.ptr.value.version != v && d.share.Some? && d.share.value != d.ptr.value.ih
  }

  function Journal(d: Disk, listing: seq<Version>): seq<Effect>
    decreases listing
  {
    if listing == [] then []
    else JournalStep(d, listing[0]) + Journal(Run(d, JournalStep(d, listing[0])), listing[1..])
  }

  predicate AnyDrop(d: Disk, listing: seq<Version>)
    decreases listing
  {
    listing != [] && (Drops(d, listing[0]) || AnyDrop(Run(d, JournalStep(d, listing[0])), listing[1..]))
  }

  /** The link is repaired before anything is pruned; a pointer to a missing directory is removed. */
  function Repair(d: Disk, listing: seq<Version>, w: World): seq<Effect> {
    if d.ptr.None? then Prune(d, listing, {}, w)
    else if d.ptr.value.version !in d.dirs then [RmPointer] + Prune(d, listing, {}, w)
    else
      (if d.link != Some(d.ptr.value.version) then [SetLink(d.ptr.value.version)] else [])
      + [RmRecord(d.ptr.value.version)]
      + Prune(d.(records := d.records - {d.ptr.value.version}), listing, {d.ptr.value.version}, w)
  }

  /** Own shares that could not be completed go, the pointer's share comes back, and the repo is pruned again. */
  function Reconcile(d: Disk, dropped: bool, listing: seq<Version>, w: World): seq<Effect> {
    (if dropped then [WriteShare(None)] else [])
    + (if d.ptr.Some? then [WriteShare(Some(d.ptr.value.ih))] + Prune(d, listing, {d.ptr.value.version}, w) else [])
  }

  /** The directory listings are re-read by every pass. */
  datatype Listings = Listings(journal: seq<Version>, prune: seq<Version>, again: seq<Version>)

  function Recover(d: Disk, l: Listings, w: World, w2: World): seq<Effect> {
    Journal(d, l.journal)
    + Repair(Resolved(d, l), l.prune, w)
    + Reconcile(Repaired(d, l, w), Dropped(d, l), l.again, w2)
  }

  /** After the journal, and after the link and the first pruning. */
  function Resolved(d: Disk, l: Listings): Disk { Run(d, Journal(d, l.journal)) }
  function Repaired(d: Disk, l: Listings, w: World): Disk { Run(Resolved(d, l), Repair(Resolved(d, l), l.prune, w)) }

  predicate Dropped(d: Disk, l: Listings) {
    var d1 := Resolved(d, l);
    AnyDrop(d, l.journal) || (d1.ptr.Some? && d1.ptr.value.version !in d1.dirs)
  }

  /** A listing names every version directory. */
  predicate Lists(d: Disk, listing: seq<Version>) {
    (set v | v in listing) == d.dirs.Keys
  }

  predicate Listed(d: Disk, l: Listings, w: World) {
    Lists(d, l.journal) && Lists(Resolved(d, l), l.prune) && Lists(Repaired(d, l, w), l.again)
  }
}
