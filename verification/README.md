# webway, verified

A Dafny model of webway: the peer-to-peer model index whose publishers sign names with ed25519 keys, bind those keys to
Ethereum accounts on chain, and share model files and catalogs as torrents. Each module models one part of the system in
the form its source has, with methods that update state in place proved against functions, and lemmas about those
functions for every input, run or interleaving.

| modules | part of the system |
|---|---|
| Options | optional values |
| Modular, EdwardsCurve, EdwardsGroup, EdwardsComplete, EdwardsRoots | residues, extended twisted-Edwards points, the group they represent, square roots |
| Ed25519Field, Ed25519Points, Ed25519Scalar, Ed25519, Ed25519Rfc, Bytes | the on-chain signature verifier, section 5.1 of RFC 8032 |
| Sha512Spec, Sha512Tables, Sha512Bits, Sha512Words, Sha512 | the on-chain hash, sections 5.1.2 and 6.4.2 of FIPS 180-4 |
| CatalogBook, CatalogQueues, CatalogCap, CatalogSteps, CatalogRuns, CatalogDirs, CatalogEffects, CatalogNode | reference-counted catalog torrents |
| WebSearch | breadth-first search over endorsements |
| Adoption, AdoptionEffects, AdoptionNode | rationed adoption of recommended DHT nodes |
| VersionDisk, VersionCrash, VersionStore | crash-safe version promotion and recovery |
| RepoLock | the per-repository import lock |
| ChainQuorum, ChainSafety, ChainLive, ChainReads | quorum reads of the registry |
| BindingText, Registry, RegistryHistory, RegistrySigned | the binding message, the registry contract after any history, and the registry with its verifier |
| Download, Manifest, ManifestPlaces | resumable downloads and manifest checking |

`dafny verify dfyconfig.toml` checks the whole project.

How the runs are modelled:

- Catalog lifecycle: a step is what runs between two awaits; any sequence of enabled steps is a run, including torrents
  opened and closed from outside, aborted and failed loads, and failed directory removals. The last-use order a cap pass
  sorts into is part of its event, because ties may fall either way.
- Version promotion: an import and a recovery are sequences of atomic disk effects computed from the disk; a crash keeps
  any prefix. Removing a directory is two effects (content spoiled, then gone).
- Lock: each process is a program counter over the file-system calls of tryAcquire; reading age and owner are two calls.
- Quorum: an attempt is everything the endpoints answer during it, with no entry where one fails.
- Adoption: a read ends unwritten, or written with any number of its addresses pinged; a restart may follow.

## Model

| member | source | states |
|---|---|---|
| Ed25519Field.Constants | contracts/src/Ed25519.sol:19-27 | the curve, order and base-point literals satisfy their defining equations: 121666 d = -121665, 2d, i^2 = -1, (p-5)/8, 2^256 mod L, and B is on the curve with 5y = 4 |
| EdwardsCurve.SumOnCurve | contracts/src/Ed25519.sol:175-188 | the unified sum of two extended curve points (X Y = Z T, -X^2 + Y^2 = Z^2 + d T^2 mod p) is one again, as polynomial identities for any modulus and d |
| EdwardsCurve.ScaleOnCurve | contracts/src/Ed25519.sol:175-188 | scaling all four coordinates keeps a point on the curve |
| EdwardsGroup.SumRepresents | contracts/src/Ed25519.sol:175-188 | the unified sum of representatives represents the affine twisted-Edwards sum of section 5.1.4 of RFC 8032 |
| EdwardsComplete.CompleteLaw | contracts/src/Ed25519.sol:19-22 | the addition law has no exceptional points: with p a field, -1 a square and d a non-square, 1 + k and 1 - k are invertible for every pair of curve points |
| EdwardsGroup.PlusPoint | contracts/src/Ed25519.sol:175-188 | the affine sum of two curve points is a curve point |
| EdwardsGroup.PlusNegate | contracts/src/Ed25519.sol:60-63 | a point plus its negation is the neutral element |
| EdwardsGroup.CombAdd | contracts/src/Ed25519.sol:191-204 | [m]A + [n]B plus [m']A + [n']B is [m+m']A + [n+n']B, from associativity |
| EdwardsGroup.MoveAcross | contracts/src/Ed25519.sol:60-67 | [m]B + [n](-A) = R exactly when [m]B = R + [n]A |
| Ed25519Points.Add | contracts/src/Ed25519.sol:175-188 | in place, on reduced inputs: no subtraction underflows, every coordinate ends below P, and the point is four times the unified sum, reduced |
| Ed25519Points.Dbl | contracts/src/Ed25519.sol:158-172 | in place, on reduced inputs: no subtraction underflows, every coordinate ends below P, and the point is the doubled one, reduced |
| Ed25519Points.AddStep | contracts/src/Ed25519.sol:175-188 | adding keeps a point on the curve and, on representatives, represents the group sum |
| Ed25519Points.DoubleStep | contracts/src/Ed25519.sol:158-172 | doubling keeps a point on the curve and, on a representative of a, represents a + a |
| Ed25519Points.DoubleIsSum | contracts/src/Ed25519.sol:158-188 | on the curve, doubling agrees with adding a point to itself up to the factor -4 |
| Ed25519Points.AddAffineLaw | contracts/src/Ed25519.sol:175-188 | the result of add satisfies the cross-multiplied affine addition law with both denominators |
| Ed25519Scalar.Le | contracts/src/Ed25519.sol:73-77 | the or-ing loop computes the little-endian value of 32 bytes |
| Ed25519Scalar.Shamir | contracts/src/Ed25519.sol:191-204 | the in-place double-and-add loop from bit 252 down computes the accumulator recurrence on reduced points |
| Ed25519Scalar.ShamirInvariant | contracts/src/Ed25519.sol:191-204 | after the bits down to i the accumulator represents [s >> i]B + [k >> i]A, for all s, k below 2^253; at i = 0 that is double-scalar multiplication |
| Ed25519.DecompressStrict | contracts/src/Ed25519.sol:80-107 | whatever modexp returns, a decoded point is on the curve, reduced, with z = 1 and t = x y, and y with the parity of x in bit 255 re-encodes to the input |
| Ed25519.DecompressInjective | contracts/src/Ed25519.sol:80-107 | two byte strings that decode to one point are the same string, even under different modexp answers |
| Ed25519.RootOnCurve | contracts/src/Ed25519.sol:84-101 | an accepted square root solves the curve equation for y, with or without the factor sqrt(-1) |
| Ed25519.IsSmallOrder | contracts/src/Ed25519.sol:144-150 | three in-place doublings of a copy followed by the identity test; the argument is unchanged |
| Ed25519.SmallOrderExact | contracts/src/Ed25519.sol:139-150 | the test accepts exactly the points with [8]P = identity |
| Ed25519.EqExact | contracts/src/Ed25519.sol:153-155 | the projective comparison holds exactly when the two affine points are equal |
| Ed25519.ReducedScalar | contracts/src/Ed25519.sol:53-58 | the two halves combined with 2^256 mod L give the 64-byte little-endian value mod L |
| Ed25519.ScalarOf | contracts/src/Ed25519.sol:53-58 | the method computing k: the hash as a little-endian number modulo L |
| Ed25519.EquationExact | contracts/src/Ed25519.sol:60-67 | the final comparison holds exactly when [S]B = R + [k]A |
| Ed25519.Verify | contracts/src/Ed25519.sol:37-68 | for every precompile the method computes the verdict function in extended coordinates, and under the group hypothesis decides length, S below L, both points decoding and not of small order, and [S]B = R + [k]A; a failed precompile call reverts |
| Ed25519.ComputedIsExpected | contracts/src/Ed25519.sol:37-68 | the verdict in extended coordinates is the verdict in the affine group |
| EdwardsRoots.CandidateRoot | contracts/src/Ed25519.sol:88-101 | if v x^2 = u has a solution then u v^3 (u v^7)^e solves it up to sign, for every p = 8e + 5 whose nonzero residues are invertible and satisfy Fermat's little theorem |
| EdwardsRoots.SameY | contracts/src/Ed25519.sol:84-107 | a y-coordinate belongs to at most two points, opposite to each other |
| Ed25519Rfc.DecompressComplete | contracts/src/Ed25519.sol:80-107 | with an exact precompile every curve point decodes from its encoding |
| Ed25519Rfc.DecompressExact | contracts/src/Ed25519.sol:80-107 | so decoding accepts exactly the encodings of curve points of section 5.1.2 of RFC 8032, yields the point, and never reverts |
| Ed25519Rfc.ComputedIsRfc | contracts/src/Ed25519.sol:37-68 | the verifier accepts exactly when section 5.1.7 of RFC 8032 does, stated without its code: pk and R are encodings of curve points A and R, S is below L, neither point has small order, and [S]B = R + [k]A without the cofactor |
| Ed25519.GroupFromField | contracts/src/Ed25519.sol:19-27 | the group hypothesis follows from invertible residues, d a non-square and associativity |
| Bytes.RoundTrip | contracts/src/Ed25519.sol:73-77 | little-endian decoding determines the bytes |
| Sha512.Hash | contracts/src/Sha512.sol:48-108 | the digest is the SHA-512 of FIPS 180-4 for every message, whatever bytes follow it in memory |
| Sha512.PadBuffer | contracts/src/Sha512.sol:55-73 | word-wise copy past the end, zeroing, marker and length stores leave exactly the padding of section 5.1.2, inside the buffer |
| Sha512Spec.PadFits | contracts/src/Sha512.sol:55-56 | the padded message is the shortest whole number of 1024-bit blocks that holds message, marker and length |
| Sha512.Expand | contracts/src/Sha512.sol:83-90 | the masked 256-bit schedule loop fills W with the recurrence of section 6.4.2 |
| Sha512.RoundInPlace | contracts/src/Sha512.sol:93-96 | one round with the shifted register array is the round function of section 6.4.2 |
| Sha512.RoundLoop | contracts/src/Sha512.sol:91-97 | eighty in-place rounds are the eighty rounds of section 6.4.2 |
| Sha512Bits.RotWide | contracts/src/Sha512.sol:38-42 | rotr on a 256-bit word that holds 64 bits is the 64-bit rotation, and >> the shift |
| Sha512Bits.SumWide | contracts/src/Sha512.sol:89-96 | sums of 256-bit words masked once are the sums modulo 2^64 |
| Sha512Tables.RoundConstants | contracts/src/Sha512.sol:13-36 | each of the eighty constants is the first 64 bits of the fraction of the cube root of its prime |
| Sha512Tables.InitialConstants | contracts/src/Sha512.sol:49-52 | each initial word is the first 64 bits of the fraction of the square root of its prime |
| CatalogRuns.LifecycleSafe | src/node.ts:986-1299 | in every state of every interleaving: pk retains r exactly when current[pk] is r, the reader count is the number of loads holding r, a live record in use is refs[ih], and an owned live record nobody uses has its destruction queued |
| CatalogRuns.QuietIsCapped | src/node.ts:1152-1263 | once no load runs and all queues are empty, the owned live torrents are the retained ones and at most catalogTorrentsMax |
| CatalogRuns.DestroyTouchesOnlyItsOwn | src/node.ts:1250-1263 | a destroy step concerns an owned record of its infohash that is idle, or changes nothing; every other record keeps its torrent, its users and its directory, every other torrent stays as it is whether a record names it or not, and no other directory goes |
| CatalogRuns.RemovalUndisturbed | src/node.ts:1250-1263 | from its check to the removal of its directory a destroyed record stays unused and dead, whatever else happens |
| CatalogRuns.StepKeeps | src/node.ts:1158-1299 | every step of load, acquire, retain, release, retire, cap, destroy, external open and close keeps the whole invariant |
| CatalogRuns.RunKeeps | src/node.ts:1158-1299 | and so does every run |
| CatalogDirs.NoDirectoryForgotten | src/node.ts:1250-1263 | in every reachable state the directory of an owned record nobody uses is gone, failed to be removed, or has its removal queued or under way; once the queues drain, the directories left are those of current catalogs and of failed removals |
| CatalogDirs.StepTends | src/node.ts:1158-1299 | every step keeps that |
| CatalogDirs.StepCarries | src/node.ts:1158-1299 | a record that any step leaves unused is queued for destruction by that step |
| CatalogCap.CapIsLru | src/node.ts:1231-1244 | one cap pass takes exactly enough idle owned torrents out of use, or all there are, none more recently used than an idle one it keeps, and changes nothing else |
| CatalogCap.CapBound | src/node.ts:1231-1244 | after a pass at most catalogTorrentsMax owned torrents sit retained without a reader |
| CatalogCap.EvictEffect | src/node.ts:1238-1243 | the eviction loop removes the retentions of exactly the first excess idle torrents in order of use |
| CatalogNode.Node.MaybeDestroy | src/node.ts:1250-1263 | in place: an idle borrowed record is forgotten, the destruction of an idle owned one is queued, anything else stays |
| CatalogNode.Node.Detach | src/node.ts:1178-1179 | the loop over retainers clears exactly the pointers that name the record, and its retainer set |
| CatalogNode.Node.SortedOwned | src/node.ts:1233-1236 | the owned live torrents, each once, by last use |
| CatalogNode.Node.EvictIdle | src/node.ts:1237-1243 | the loop skipping busy torrents computes the eviction function |
| CatalogNode.Node.CapTorrents | src/node.ts:1231-1244 | the whole pass in place computes the cap function on some order by last use |
| CatalogNode.Node.Release | src/node.ts:1204-1208 | in place: one reader fewer, maybe destroyed, then capped; records with readers and other publishers' pointers are untouched unless the cap takes them |
| CatalogNode.Node.Retain | src/node.ts:1211-1220 | in place: nothing if already current; otherwise the previous record loses pk first, then the new one gains it, then capped. For a record with a reader: pk points at it and retains it, used now, and no other record retains pk; the cap spares it |
| CatalogNode.Node.Retire | src/node.ts:1222-1228 | in place: the current record loses pk when the infohash matches or none is asked for, pk points nowhere, and nothing else changes but the destruction of a record left unused |
| CatalogNode.Node.AcquireBegin | src/node.ts:1172-1186 | in place: a live record gains a reader and leaves the queue; a stale one loses every pointer and its name, is queued for cleanup if it was owned and idle, and the client is asked |
| CatalogNode.Node.DestroyCheck | src/node.ts:1253-1256 | in place: a record used again is left alone, an idle one leaves refs and its torrent is destroyed |
| CatalogNode.Node.DestroyDone | src/node.ts:1257-1261 | in place: only the record's own generation directory goes |
| CatalogEffects.RetainEffect | src/node.ts:1211-1220 | a load that finished keeps its catalog: pk points at its record, the record retains pk and was used now, no other record retains pk, and every other publisher keeps its pointer unless the cap evicted it |
| CatalogEffects.RepointCapped | src/node.ts:1211-1220 | repointing and capping together do that, whatever order ties are sorted in |
| CatalogEffects.ReleaseEffect | src/node.ts:1204-1208 | a release takes one reader from its record alone; nothing else changes but what the cap evicts, which is idle and owned |
| CatalogEffects.RetireEffect | src/node.ts:1222-1228 | a retirement that applies leaves pk pointing nowhere and retained by nothing; one that does not changes nothing |
| CatalogEffects.TouchEffect | src/node.ts:1119-1120 | a cache hit makes the current record used now if it has that infohash, and changes nothing else |
| CatalogEffects.AcquireLive | src/node.ts:1174-1199 | a live record of the infohash gains one reader, is used now, and its load leaves the queue |
| CatalogEffects.AcquireStale | src/node.ts:1175-1183 | a stale record is retained by nobody, pointed at by nobody and named by no infohash, and its cleanup is queued if it was owned and nobody reads it |
| CatalogEffects.AcquireFoundEffect | src/node.ts:1184-1199 | a torrent the user already has becomes a borrowed record with one reader, under its infohash |
| CatalogEffects.AcquireAddedEffect | src/node.ts:1188-1199 | a torrent that was added becomes an owned record with one reader, a fresh generation and its directory |
| CatalogEffects.DestroyCheckEffect | src/node.ts:1253-1256 | an idle record loses its name, its torrent is closed and its removal starts; a used one is left alone |
| CatalogEffects.DestroyDoneEffect | src/node.ts:1257-1261 | the directory of that generation goes, unless the removal failed, and nothing else |
| CatalogEffects.StepLeavesNone | src/node.ts:1158-1299 | no step leaves an idle borrowed record under its infohash |
| CatalogEffects.BorrowedForgotten | src/node.ts:1250-1252 | so in every reachable state a borrowed record that nobody uses has been forgotten |
| WebSearch.Search | src/node.ts:1313-1347 | whatever cuts it short (budget, deadline, result limit): publishers are visited at most once, never self, at most maxPublishers, all within depth and none while a nearer one is passed over; the hits are exactly the matching entries of the visited publishers (of all but the last when the result limit was hit), no entry twice, with exact endorsement distances, nearest first; the walk ends only at a limit or when everything within depth has been visited |
| WebSearch.VisitLevel | src/node.ts:1326-1342 | one level loads a beginning of its frontier, collects exactly their matches, and keeps the level invariant: the frontier is at its exact distance, and nothing nearer is missing while the budget lasts |
| WebSearch.NearerVisited | src/node.ts:1326-1345 | a level is only begun once everything nearer has been visited |
| WebSearch.DistanceIsShortest | src/node.ts:1305-1312 | the distance of a publisher is the least number of hops that reaches it |
| WebSearch.WithinIsPath | src/node.ts:1305-1312 | a publisher within n hops is reached by a path of at most n endorsements from the follow list that avoids self |
| WebSearch.PathIsWithin | src/node.ts:1305-1312 | and every such path witnesses it |
| WebSearch.Collect | src/node.ts:1331-1337 | the hits of one publisher: matching entries not seen before, each the first of its infohash, in the order of the catalog, up to the result limit |
| WebSearch.Enqueue | src/node.ts:1339-1343 | endorsed publishers are queued once each while the budget lasts: exactly a beginning of the list, all of it unless the budget ran out, and in its order |
| Adoption.RationsHold | src/node.ts:82-91 | over every run with crashes and restarts, whatever the clock does: per canonical publisher key at most 20 addresses, at most 4 of one /24, no address twice, and at most 100 per process are ever handed to the DHT |
| Adoption.NoLaundering | src/node.ts:886-897 | with a monotone clock an address handed over within the hour is in no catalog we publish, across restarts |
| Adoption.GuardExact | src/node.ts:125-127 | without any clock hypothesis: an address remembered as adopted at t or later stays out of every catalog published at a reading below t plus an hour exactly when a restart reads no earlier than the adoption on file and less than a day past it, and a read that adopts it again reads no earlier than t |
| Adoption.NoLaunderingLate | src/node.ts:886-897 | so after any run, an address handed over at t is in no catalog published at a reading below t plus an hour, however the clock jumps, as long as every later step reads it that late |
| Adoption.ClockBackLaunders | src/node.ts:125-127 | from an empty node: one adoption and one restart advertise the address within its hour exactly when the restart reads before the adoption or a day or more past it |
| Adoption.RunBooks | src/node.ts:1050-1093 | every read, crash, failed write and restart keeps the books, whatever the clock does: every address handed over is on its publisher's persisted account |
| Adoption.RunProvenance | src/node.ts:1050-1093 | with a monotone clock every recent adoption is remembered in memory and on disk |
| Adoption.CanonicalKey | src/node.ts:99-102 | exactly 64 hexadecimal digits name a publisher; two spellings name the same one exactly when they differ in case only, and canonical keys are fixed points |
| Adoption.WalkOk | src/node.ts:1069-1084 | one pass over the entries keeps every budget and the counts exact |
| AdoptionNode.Node.AdmitAll | src/node.ts:1069-1084 | the loop with its continues and breaks computes that pass, and every address it admits was on offer among the first 200 entries: IPv4, usable, public unless private ones are allowed, not in the table, not on the publisher's books, not adopted before a full table |
| AdoptionNode.Node.AdoptNodes | src/node.ts:1050-1093 | the transaction in place: accounting persisted before the first ping, nothing persisted when nothing was admitted, and only such addresses admitted |
| AdoptionNode.Node.Restart | src/node.ts:266-269 | a new process restores provenance younger than a day and starts its session over |
| AdoptionNode.Node.PublishNodes | src/node.ts:893-897 | the advertised nodes are table entries, IPv4 and public unless private ones are allowed, and exclude every address handed over within the hour |
| AdoptionEffects.HandedWasOffered | src/node.ts:1069-1093 | over every run, with crashes and restarts anywhere, every address handed to the DHT was on offer among the first 200 entries of one read of that publisher's catalog: IPv4, usable, public unless private ones are allowed, in neither our table nor its books, and unknown if the table was full |
| AdoptionEffects.ReadSound | src/node.ts:1069-1093 | one read hands over nothing else |
| AdoptionEffects.ReadComplete | src/node.ts:1069-1093 | and a read that runs to its end hands over every new address on offer, unless four of its /24 are on the books, or the table is full and it was adopted before, or a budget (20, 20, 100) ran out, and then only on earlier entries |
| AdoptionEffects.ReadCharges | src/node.ts:1082-1088 | it charges the publisher's books and the session for the same addresses, at most 20, and no other publisher, before handing over the first of them, as many as the process lived to ping; a file not written charges and hands over nothing |
| AdoptionEffects.AdvertisedExact | src/bootstrap.ts:318-337 | our catalog names table entries only (IPv4, public unless allowed, not adopted within the hour), none twice, at most 20, and leaves one out only after 20 earlier ones |
| VersionCrash.CrashConsistent | src/hf.ts:584-632 | stop an import after any number of effects and any number of recoveries after any number of theirs: the pointed-to directory always holds the pointer's content, and the next completed recovery leaves pointer, link and share all on the old version (or none) or all on the new, namely on what the disk decided where the import stopped |
| VersionCrash.HistorySettles | src/hf.ts:584-632 | every history of imports, crashed or not, each recovered before the next, ends settled on a version that was imported |
| VersionCrash.LifeSettles | src/hf.ts:584-632 | so from an empty disk the repository always settles, with no pointer or on a version imported |
| VersionCrash.EpisodeSettles | src/hf.ts:521-632 | one import settles on exactly one pointer: where it lands when it runs to its end, and otherwise what the disk decided where it was stopped |
| VersionCrash.HistoryLands | src/hf.ts:521-632 | and after any history the pointer is the one its last import lands on, or decided where it was stopped |
| VersionCrash.RecoverDecides | src/versions.ts:152-203 | a recovery ends with the pointer on disk, or without one with the new version exactly when its share was recorded; stopped anywhere it changes nothing about that |
| VersionCrash.CommitPoint | src/hf.ts:584-627 | the commit point of a published import: its seventh effect, the pointer, or its sixth, the share record, when there is no pointer yet |
| VersionCrash.SecondRecoveryExact | src/versions.ts:152-203 | a second recovery changes nothing exactly when every directory it finds is the pointed-to one, journaled, being staged, or backs a torrent still live at each of its prunings |
| VersionCrash.SecondRecovery | src/versions.ts:152-203 | so a second recovery changes nothing as long as no directory lost the torrent that kept it |
| VersionCrash.RecoverAlong | src/versions.ts:152-203 | recovery may itself be stopped anywhere without losing recoverability, and settles when it completes |
| VersionCrash.PromoteAlong | src/hf.ts:591-632 | promotion may be stopped anywhere; refused, cancelled, duplicate or published, it ends settled with the exact pointer, share, directories and journal of that outcome |
| VersionCrash.ImportAlong | src/hf.ts:536-632 | the same for the whole import from staging on; one that runs to its end moves the pointer to the new version exactly when it is published, the pointer is not already on that version and does not hold the same content, and leaves it where it was otherwise |
| VersionCrash.TwoJournaledMispair | src/versions.ts:172-188 | why recovery must come before the next import: after any two first imports of different content, each stopped between share record and pointer with no recovery between, recovery points the first version listed at the second import's infohash, and settles exactly when that version is the second one's |
| VersionCrash.PruneAlong | src/versions.ts:114-133 | pruning removes exactly what is not kept, in progress, journaled or live, and is safe at every effect |
| VersionStore.Store.PruneVersions | src/versions.ts:114-133 | the loop in place carries out that plan up to the crash |
| VersionStore.Store.ReadJournal | src/versions.ts:172-189 | the journal loop in place: committed, completed or abandoned, and whether a share must be dropped |
| VersionStore.Store.RepairLink | src/versions.ts:190-197 | pointer, link, staging record and pruning in place, in that order |
| VersionStore.Store.RecoverImports | src/node.ts:548-566 | the whole recovery in place is the recovery plan up to the crash |
| VersionStore.Store.PromoteVersion | src/hf.ts:591-628 | the promotion in place is the promotion plan up to the crash |
| VersionStore.Store.Commit | src/hf.ts:618-627 | pointer, link, journal, record and pruning in place, in that order |
| VersionStore.Store.ImportVersion | src/hf.ts:521-632 | the import in place is the import plan up to the crash, and one that ends leaves a settled repository with the pointer where the import lands |
| RepoLock.OneHolder | src/versions.ts:248-285 | in every interleaving of any number of processes arriving at a free lock or one a dead owner left, as long as releases are calm, at most one holds it and the directory is its own |
| RepoLock.HolderStays | src/versions.ts:248-285 | nothing but its own release takes the lock from a holder |
| RepoLock.TakesDead | src/versions.ts:248-285 | from a free lock or one a dead owner left, any process takes it by steps of its own |
| RepoLock.NeverJams | src/versions.ts:248-285 | in every state of every calm run somebody holds the lock, or some process can take it by steps of its own |
| RepoLock.GivesUp | src/versions.ts:257-273 | a process that reads the age, or the age and the owner, of a live holder's written lock gives up without touching lock or guard |
| RepoLock.ReleaseFrees | src/versions.ts:286-289 | a release removes the directory and nothing else |
| RepoLock.StepKeeps | src/versions.ts:248-285 | each file-system call of tryAcquire keeps the lock invariant |
| RepoLock.RecheckSees | src/versions.ts:271-272 | under the guard the re-check never finds the directory missing |
| RepoLock.ReleaseExact | src/versions.ts:228-242 | which releases can be followed by two holders, with no further release: exactly those that come while a process that found the lock taken may still re-check it and none is already past its rename |
| RepoLock.NotCalmBreaks | src/versions.ts:228-242 | the run that breaks it, from every such state: the missing directory counts as stale, a fresh process makes the lock, and the rename moves that lock aside |
| RepoLock.ReleaseDuringReclaim | src/versions.ts:228-242 | such a release is reachable from a free lock |
| ChainSafety.VerifiedIsTrue | src/chain.ts:299-307 | with fewer than minAgree faulty endpoints per attempt, answering anything, a result is a canonical height and hash with the registry's own owner and record at that one block, across the retry; no owner exactly when the key is unbound or bound to the zero address, no record exactly when nothing is published |
| ChainSafety.SnapshotCanonical | src/chain.ts:185-228 | a snapshot is a canonical height and hash, agreed by at least minAgree distinct endpoints |
| ChainSafety.ReadTrue | src/chain.ts:244-267 | a pinned read of a canonical snapshot is the truth at that block |
| ChainSafety.DisagreementMeansFault | src/chain.ts:226-227 | honest endpoints never cause a disagreement error, neither for the snapshot nor for a read |
| ChainSafety.HeightIsBest | src/chain.ts:212-217 | at least minAgree surviving heads reach the target and the height, and fewer than minAgree reach anything above the target |
| ChainSafety.HeightBelowHonest | src/chain.ts:212-217 | with fewer than minAgree faulty endpoints the height is zero or at least 2 below an honest head |
| ChainSafety.HonestSurvive | src/chain.ts:199-210 | if honest heads are a strict majority of the live ones and within 64 of each other, the median filter evicts none of them |
| ChainSafety.MedianBetween | src/chain.ts:199-201 | a strict honest majority keeps the median between its lowest and highest head |
| ChainLive.VerifiedLive | src/chain.ts:231-307 | a verified read succeeds whenever at least minAgree endpoints are online, within 64 blocks of each other, honest and serving what they have, in the first attempt whatever the second would meet, or in the second; and it fails exactly when both attempts fail |
| ChainLive.AttemptLive | src/chain.ts:185-307 | one such attempt yields the registry's own answer at a canonical block |
| ChainLive.TakeExact | src/chain.ts:185-229 | a snapshot is taken exactly when at least minAgree endpoints, near the median and with the block, report its hash and no two differ; its block is 2 below the greatest one minAgree of them have; otherwise the error names the count or the disagreement |
| ChainLive.TakeTooFew | src/chain.ts:198-211 | with fewer than minAgree endpoints online, or near the median, the error says how many there were |
| ChainLive.ReadExact | src/chain.ts:244-267 | a pinned read succeeds exactly when at least minAgree endpoints of the snapshot give an answer that decodes and all are equal |
| ChainLive.MedianExact | src/chain.ts:200-201 | the median is the mean of the two middle heads rounded down, one and the same head for an odd number |
| ChainQuorum.SortSorts | src/chain.ts:200-212 | sorting orders the heads and keeps them all |
| ChainQuorum.KthCounts | src/chain.ts:212-213 | in a sorted sequence more than k elements reach t exactly when the k-th does |
| ChainReads.ProbeAll | src/chain.ts:186-197 | the probing loop: live endpoints of the right chain, and every endpoint either live or excluded for a reason |
| ChainReads.NearMedian | src/chain.ts:202-210 | the filter loop: endpoints within 64 of the median, the others recorded |
| ChainReads.TakeSnapshot | src/chain.ts:185-229 | the client method computes the snapshot function, errors included |
| ChainReads.ReadEverywhere | src/chain.ts:244-267 | the read loop and the comparison of all answers compute the read function, errors included |
| ChainReads.ReadVerified | src/chain.ts:231-237 | two attempts, each from its own snapshot; the first success or the second error |
| Registry.OwnerIsGreatest | contracts/src/WebwayRegistry.sol:73-85 | after any history ownerOf names the sender of the accepted binding with the greatest epoch, and no (pk, epoch) is accepted twice |
| Registry.OwnerWasSigned | contracts/src/WebwayRegistry.sol:73-85 | if every accepted signature of pk that arrives is over something its holder signed, whatever else that key signs, then the holder signed the message that names this chain, the owner and its epoch, and names no other |
| Registry.OwnerConsented | contracts/src/WebwayRegistry.sol:73-85 | and if nothing else the holder signs begins like a binding message (DHT records begin with a digit), the owner is an account and epoch the holder agreed to for this chain |
| Registry.BindingsCarried | contracts/src/WebwayRegistry.sol:75-85 | every accepted binding arrived in a transaction of the history, sent by the account it names |
| Registry.BindingsRise | contracts/src/WebwayRegistry.sol:73-85 | from any state the accepted bindings of a key have rising epochs, are genuine, and the last one is the owner |
| Registry.PublishedLast | contracts/src/WebwayRegistry.sol:88-101 | accepted sequence numbers of a name rise, and the record is the last publication |
| Registry.OthersCannotTouch | contracts/src/WebwayRegistry.sol:88-113 | no transaction of another account changes an account's records or nodes |
| Registry.NodesStayGood | contracts/src/WebwayRegistry.sol:104-113 | advertised node lists always respect the limits |
| RegistryHistory.OwnerDecided | contracts/src/WebwayRegistry.sol:73-85 | of all the bindings of pk ever sent, whether they went through or not, the first genuine one with the greatest epoch decides the owner, and without one there is none |
| RegistryHistory.RecordDecided | contracts/src/WebwayRegistry.sol:88-101 | of all the publications of a name its account ever sent, the first within the limits with the greatest number is the record, and without one there is none |
| RegistryHistory.NodesDecided | contracts/src/WebwayRegistry.sol:104-113 | the last list within the limits that an account sent is what it advertises, unchanged and in order |
| RegistryHistory.BindExact | contracts/src/WebwayRegistry.sol:75-85 | a genuine binding goes through exactly when its epoch is above the current one, and then its sender owns the key; any other transaction leaves the owner |
| RegistryHistory.PublishExact | contracts/src/WebwayRegistry.sol:88-101 | a publication goes through exactly when name and license fit and its number is above the current one, and then it is the record; any other transaction leaves the record |
| RegistryHistory.SetNodesExact | contracts/src/WebwayRegistry.sol:104-113 | a list goes through exactly when it has at most 20 entries of 1 to 64 characters, and then replaces the account's nodes; any other transaction leaves them |
| Registry.Contract.Bind | contracts/src/WebwayRegistry.sol:75-85 | in place: the refusal checked in the contract's order, or the new owner |
| Registry.Contract.Publish | contracts/src/WebwayRegistry.sol:88-101 | in place: the refusal, or the new record |
| Registry.Contract.SetNodes | contracts/src/WebwayRegistry.sol:104-113 | in place: the list built entry by entry, all or nothing |
| Registry.Contract.CheckBinding | contracts/src/WebwayRegistry.sol:64-67 | the pre-flight gives exactly the verifier's answer for that account and epoch, without the epoch check |
| RegistrySigned.BindsExactly | contracts/src/WebwayRegistry.sol:73-85 | with the contract's own verifier a binding goes through exactly when its epoch is new and RFC 8032 accepts its signature under pk of this chain, the sender and the epoch |
| RegistrySigned.OwnerHoldsSignature | contracts/src/WebwayRegistry.sol:73-85 | after any history the owner of pk sent a transaction of that history carrying an RFC 8032 signature under pk of exactly this chain, this account and this epoch, and no accepted epoch was greater |
| RegistrySigned.OwnerAuthorised | contracts/src/WebwayRegistry.sol:73-85 | with unforgeability of the RFC 8032 signatures that arrive, the holder of pk signed the message that names this chain, the owner and its epoch, and names no other |
| RegistrySigned.CheckBinding | contracts/src/WebwayRegistry.sol:64-67 | checkBinding with the verifier called: the deployed registry's answer |
| BindingText.MessageInjective | contracts/src/WebwayRegistry.sol:58-60 | equal messages name the same chain, account and epoch |
| BindingText.MessageBytesInjective | contracts/src/WebwayRegistry.sol:58-60 | and so do equal signed bytes |
| BindingText.ClientAgrees | src/chain.ts:105-109 | the client signs exactly the contract's message, whatever case the address is spelled in |
| BindingText.ClientSigns | src/chain.ts:105-109 | for every positive safe chain id, 64-bit epoch and account, in whatever case its address is spelled, the client produces the contract's message |
| BindingText.DecText | contracts/src/WebwayRegistry.sol:130-137 | the digit-counting and right-to-left loops write canonical decimal |
| BindingText.DecCanonical | contracts/src/WebwayRegistry.sol:130-137 | only digits, no leading zero, and the number is read back |
| BindingText.HexOf | contracts/src/WebwayRegistry.sol:139-149 | the nibble loop writes forty lower-case hexadecimal digits of the address |
| BindingText.HexReads | contracts/src/WebwayRegistry.sol:139-149 | the address is read back from its text |
| BindingText.HexWrites | contracts/src/WebwayRegistry.sol:139-149 | and every text of that shape is the text of its value |
| BindingText.ContractMessage | contracts/src/WebwayRegistry.sol:58-60 | the contract's concatenation is the binding message |
| Download.Destination.DownloadFile | src/hf.ts:330-418 | returns exactly when the kept, resumed or restarted content has the exact size and digest, and then the file is that content; against servers of one representation the file is always a beginning of it; servers that send it whole, or the rest of it after a partial file, or a useless range and then the whole, leave exactly the representation wanted; an error response leaves a partial file to be resumed |
| Download.Destination.Prepare | src/hf.ts:331-349 | a complete file is kept, a partial one of known size resumed from its end, anything else removed |
| Download.Destination.ReceiveRanged | src/hf.ts:364-378 | an exact 206 is appended, a 200 restarts from zero, another 206 or a 416 is discarded for one retry, anything else fails and leaves the file as it is |
| Download.Destination.ReceiveWhole | src/hf.ts:379-382 | a plain response is taken from zero unless it is partial or an error |
| Download.Destination.Stream | src/hf.ts:386-408 | bytes beyond the cap remove the file, a broken stream leaves what was there and exactly what was flushed, a whole one is appended |
| Download.ServedArrives | src/hf.ts:330-418 | such servers satisfy the download, from any file there may be: a file that already meets size and digest stays, otherwise the representation arrives |
| Download.ContentRangeReads | src/hf.ts:300-306 | a well-formed Content-Range is read back exactly when start <= end < total are safe integers |
| Manifest.ValidateManifest | src/hf.ts:117-173 | for every folding function a manifest is accepted exactly when it is acceptable, and yields the commit and the kept files in order |
| Manifest.NoAliases | src/hf.ts:145-170 | in an accepted manifest two path prefixes with equal folds are the same string, and no kept file folds to a directory of any entry |
| Manifest.AddPath | src/hf.ts:148-157 | the prefix loop succeeds exactly when every fold keeps one spelling, and records the folds of directories |
| Manifest.CheckEntry | src/hf.ts:127-144 | one entry passes exactly when path, sizes and digests are well-formed and agree |
| Manifest.CheckPath | src/hf.ts:97-111 | a path passes exactly when it is safe on every platform |
| Manifest.PartsJoin | src/hf.ts:105-110 | the components contain no slash and join to the path again |
| ManifestPlaces.PathExact | src/hf.ts:84-111 | a path is accepted exactly when its characters are plain, it resolves below the directory to the very components it spells, at most maxDepth of them, and none ends in what Windows strips or is a device before its first dot |
| ManifestPlaces.DeviceExact | src/hf.ts:88-96 | the device pattern holds exactly of one-line names whose stem before the first dot is con, prn, aux, nul, or com or lpt with a digit, in any case |
| ManifestPlaces.PlacesApart | src/hf.ts:145-170 | in an accepted manifest no kept file lands where another entry does, or is a directory on the way to one |
| ManifestPlaces.KeptExact | src/hf.ts:158-163 | the kept files are the entries other than .gitattributes |
| ManifestPlaces.AcceptedExactly | src/hf.ts:117-173 | a manifest is accepted exactly when its commit is 40 lower-case hexadecimal digits, its entries (at most maxFiles, one of them kept) each pass and have different paths, no two paths collide under folding at any directory or end, no kept file folds to a directory, and the sizes fit |
| ManifestPlaces.EntryExact | src/hf.ts:127-146 | an entry passes exactly when it is well typed, its path is accepted, it declares at most one size, and its digest is 64 lower-case hexadecimal digits |
| ManifestPlaces.FileExact | src/hf.ts:127-165 | the file it becomes has the size declared in either field and the digest it carries |

## Left out

Hypotheses the theorems name:

- Ed25519Rfc.ComputedIsRfc: associativity of the Edwards addition law, invertibility of nonzero residues mod P, Fermat's little theorem for P and d being a non-square are hypotheses (primality of P is not proved), and so is a precompile that computes powers; completeness of the addition law and of point decoding are proved from them. Ed25519.DecompressStrict needs none of them.
- Registry.OwnerWasSigned: unforgeability of the ed25519 signatures that arrive is a hypothesis; names stand for their keccak256 hashes.
- RepoLock.OneHolder: no guard directory outlives staleMs, holders write owner and heartbeat in time, and releases are calm; ReleaseExact says which are.
- VersionCrash.CrashConsistent: a consistent start, atomic single-file writes, true directory listings, and recovery of a repository completing before its next import; TwoJournaledMispair shows what happens without the last one. License text in the restored share is not modelled.
- Adoption.NoLaundering: the clock never goes back (NoLaunderingLate and GuardExact do without); the millisecond spread of the clock readings inside one read is not modelled, the whole read has one time.
- ChainSafety.VerifiedIsTrue: honest endpoints serve one chain and fail pinned reads of other blocks; the answers of an attempt are fixed while it runs.

Parts of the system:

- webtorrent, the DHT, uTP, HTTP, RPC clients, timers, the CLI and logging: their outcomes are nondeterministic steps or parameters.
- The catalog cache, shared in-flight loads and their abort signals (src/node.ts:1104-1150): a load may end at any await instead.
- CatalogDirs.NoDirectoryForgotten: directories of records; the directory of a generation whose download could not be added (mkdir done, client.add throwing) has no record and is not tracked.
- CatalogNode.Node.Release: the reference records are a map of values keyed by record number, so aliasing between JavaScript objects is identity of numbers.
- WebSearch.Search: equal distances are ordered by name with a locale comparison; the model keeps only the order by distance. One load per publisher, so a catalog does not change during the search.
- AdoptionNode.Node.PublishNodes: routing-table entries come parsed and classified (IPv4, private, /24).
- AdoptionNode.Node.Restart: parsing and repair of a damaged dht-adopt.json, including the merge of case variants of one key left by older files; files read back are the ones written.
- VersionStore.Store.RecoverImports: one repository at a time; the listing of organisations, skipped locks and per-repository error reports are left out, and so is retiring torrents that read a non-current version. A real directory at the link path makes the code throw before pruning; the model assumes there is none, as the import checks.
- VersionStore.Store.ImportVersion: the failure path leaves its journal entry behind without a directory, as the code does; the manifest, reuse of staged files and the download itself are other modules or left out.
- ChainReads.TakeSnapshot: error texts, labels and URL scrubbing; only the counts of an error are kept.
- Registry.Contract.Bind: events, gas and the transaction envelope.
- Download.Destination.DownloadFile: headers other than status and Content-Range, stall watchdogs and progress callbacks; they end a stream early, which the model allows at any byte.
- Manifest.ValidateManifest: the folding function (NFKC and lower case) is any function; error messages are one refusal.
- Sha512.Hash: the free-memory pointer; the bytes that a word-wise load reads past the message are arbitrary.
- The two-source name resolution, sequence-number allocation, bootstrap merging, address classification and atomic JSON writes: easier members, used here only as what they guarantee.
