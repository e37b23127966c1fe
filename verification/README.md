# Mnemosia storage protocols, modelled and proved

Mnemosia keeps records in a storage network that bills by the slab. This project models the parts of it
that keep a catalog, a durable queue, a slab ledger, a vector index, session heads and the network in
agreement while processes crash, race and move data, together with the byte formats and the ranking those
parts rest on. Every statement below is proved by the Dafny verifier for all inputs and all runs of the
model; nothing here runs the Go program.

## How it is laid out

| files | what they model |
|---|---|
| `Bytes`, `Records` | bytes, fixed-width integers, walking a blob of pieces, what is assumed of sealing |
| `Frames`, `Envelope`, `Reachability`, `Base64` | the framing header, the location envelope, the reach check, the base64 of catalog lines |
| `KeyedLog`, `ManifestLines`, `Manifest`, `CatalogRuns` | the encrypted catalog: lines, log, snapshot, compaction, whole runs |
| `IndexFile`, `IndexStore`, `MatchHeap`, `VectorIndex`, `Vectors` | the vector index: files, folding, flat matrix, top-k search, the two kept together |
| `World`, `Ledger`, `ChangeFeed`, `Locations`, `Sweeping`, `Vault`, `Reclaim`, `Repack`, `VaultRecords`, `Hydration` | the account and the device: the feed and its walk, the location cache, forgetting, hydrating, fetching, sweeping, orphan release, repack |
| `Queue`, `VaultQueue`, `Packer`, `FlushProtocol` | the shared flush queue, one process's claim, write, catalogue, drop over the vault, and any number of processes interleaved |
| `VaultRuns` | runs of every operation of the vault, the queue included, each cut short anywhere |
| `Conversations`, `Splitting`, `Transcript`, `Heads`, `SessionRuns`, `Sessions`, `Rebuild`, `RebuildRuns` | chunked transcripts, paging, the version swap on heads, forgetting a session, rebuilding a lost head |
| `Fusion`, `Ranking` | rank fusion and the soft filter |
| `InFlight` | the bounded worker pool as an interleaving step machine |

In `Vault` every operation is a sequence of durable steps taken through `Device.Commit`, each of which may
fail before or after taking effect; `Device.passed` keeps every durable state gone through. A process that
dies leaves one of those states behind, so a property of all of `passed` is a property of a crash anywhere.
On a device that is `steady` no call fails, and each operation's contract says that it then does what it is for.
`VaultRuns.Crash` resumes a run from any of them, in a new process with a new packer.

## What is assumed

- One process writes the catalog; only the flush queue and the session heads are shared between processes.
- An upload returns fresh object refs, each object sits on exactly one slab, an object opens exactly while
  that slab is pinned, and one object holds one framed record. A slab's digest determines the half of a
  location stored under it, and a sealed location opens as the object it was made for.
- Sealing is abstract: opening inverts sealing, the sealed length is a function of the plaintext, is not
  zero, and fits four bytes for plaintexts under half a megabyte. Where a cut file is read, no proper prefix
  of a sealed blob opens; where it is then written on, no stretch of bytes that begins inside the cut entry
  and runs on into whole ones opens (`IndexFile.NoSplices`), nor does a whole line of the catalog joined to
  the beginning of another (`ManifestLines.NoJoins`). The catalog's JSON codec is an invertible
  function. Content ids are distinct for distinct records.
- Record and chunk ids are minted once. The embedding model's name and width fit the index layout's fields.
- Scores are reals; the rounding of float32 arithmetic is not modelled.
- The account's change feed lists each key once, at its latest update, and does not move while one walk
  reads it. An update during a walk is how an event comes to be overtaken; what that does is
  `ChangeFeed.LiveIsDropped`.

## What turned out not to hold

Each of these is stated with the exact condition under which the code does what was intended.

- A catalog file cut anywhere but at the end of a line, or just before its newline, cannot be read at all;
  the comment at `manifest/lines.go:41-43` says a cut last line is tolerated (`ManifestLines.RecoveredExactly`,
  and for a process that dies in an append, `CatalogRuns.LoadAfterDying`). A catalog that lost only a newline
  loads, and once anything is appended to it never loads again (`CatalogRuns.DieThenWriteOn`).
- An append to the catalog that fails part way, or only in its sync, can leave on disk what memory does not
  hold, or a log that no later process can read once anything is written behind it, until a compaction
  succeeds (`CatalogRuns.LiveOn`, `Manifest.Manifest.Compact`).
- An entry whose line is longer than the scanner's buffer can be appended and never read back
  (`ManifestLines.WholeFileReads`, `CatalogRuns.Load`). Records saved through the vault stay far below that:
  `record/validate.go:15-16` allows 32 tags of 64 bytes. Only a caller of the catalog itself can get there.
- The catalog's write bound is on what its own statistics count. What failed compactions had written is not
  in them (`manifest/snapshot.go:139-141`), and a compaction that fails is tried again by the next append:
  bytes written equal bytes counted exactly when every compaction that failed did so before its first byte
  (`CatalogRuns.WriteAll`), and while each fails with its snapshot written they pass any multiple of what was
  appended that is smaller than the catalog is to one line (`CatalogRuns.FailEachTime`,
  `CatalogRuns.FailuresPassAnyMultiple`).
- The envelope's decoders index an empty slice when given nothing (`Envelope.PanicsExactlyOnEmpty`).
- Shard and slice counts above 16 bits do not survive the envelope, nor vector widths the index entry
  (`Envelope.SplitThenJoin`, `IndexFile.EntryRoundTrip`).
- Once an append to the vector delta was cut part way, nothing appended behind it is ever read, and the next
  fold makes that final: vectors put are missing after reopening, and vectors forgotten are back
  (`IndexFile.AppendedAfterCut`, `IndexStore.Store.AppendAfterDying`, `Vectors.Searchable.PutVector`,
  `Vectors.Searchable.Forget`).
- After a record is forgotten the in-memory index still finds it until the vault is opened again
  (`Vectors.Searchable.Forget`).
- A repack strands whatever shared the slabs it released without being catalogued, such as a record forgotten
  since the last sweep (`Repack.StrandsExactly`, `Repack.ForgettingMakesBystanders`).
- Should an event of the feed be overtaken by a later one for its key, an object that opens is reported
  unreadable, and so dropped (`ChangeFeed.UnreadableIsCurrent`, `ChangeFeed.LiveIsDropped`).
- A record enqueued again with a new payload loses that payload if some process is still carrying the old
  one, and only then (`FlushProtocol.ReEnqueueLosesExactly`). The vault's two callers
  (`vault/remember.go:168`, `vault/session.go:362`) mint an id each time, so it never does this itself.
- Forgetting a record does not reach its row in the queue: the next completed flush that takes the row
  catalogues the record again (`Packer.ForgetThenFlush`).
- The head swap's insert arm ignores the version its writer expected. Once a session has been forgotten under
  a writer, its commit brings the head back, naming every chunk that was dropped: of these only its own can be
  read, and the others can be again only if they still wait in the queue, which forgetting does not reach, or
  were being fetched. Its commit can even replace a head at the same version that it never read, erasing a
  save another writer was told is committed (`SessionRuns.CommitsOverExactly`,
  `SessionRuns.ForgottenComesBack`, `SessionRuns.CanBeReadExactly`, `SessionRuns.CommittedSaveIsErased`), and in
  the same way a memory link that was committed (`SessionRuns.LinkIsLostExactly`, `SessionRuns.CommittedLinkIsErased`).
- The append check admits a message id that is inside an earlier chunk. Paging by id then repeats or skips
  messages, or goes round for ever (`Transcript.PagingReadsExactly`, `Transcript.PagingEndsExactly`,
  `Sessions.RepeatedIdGoesRound`).
- A rebuild takes in chunks of saves that were never committed (`Rebuild.RebuildRestores`). A writer that dies
  between its chunk and its commit leaves one, and the gap report does not show it (`RebuildRuns.StrayIsTakenIn`);
  it shows strays exactly when their numbers do not carry on from the head's (`Rebuild.GapSeesStrays`).

## Model

| member | source | states |
|---|---|---|
| `Frames.UnframeFrame` | seal/frame.go:53-88 | unframing a framed record gives back that record and exactly the bytes after it |
| `Frames.VarintRoundTrip` | seal/frame.go:53-62 | a length written as a base-128 varint is read back whole, whatever follows, for every 64-bit length |
| `Frames.TruncatedFrame` | seal/frame.go:53-88 | no proper prefix of a frame unframes |
| `Frames.OverheadIsExact` | seal/frame.go:112-115 | the overhead budgeted for a record is what framing it really adds, for every length |
| `Frames.WalkBlob` | seal/frame.go:98-109 | the loop returns every record up to the first damage and says whether it met any |
| `Frames.PackRoundTrip` | seal/frame.go:98-109 | walking any concatenation of framed records returns exactly those records, undamaged |
| `Frames.TruncatedBlob` | seal/frame.go:98-109 | cut at any byte, a blob yields exactly the records lying wholly before the cut, with damage reported unless the cut fell between two |
| `Envelope.EncodeObject` | sia/envelope.go:23-42 | the bytes written are the object's fields in the fixed layout |
| `Envelope.EncodeSlab` | sia/envelope.go:79-90 | the bytes written are the slab's shared fields in the fixed layout |
| `Envelope.DecodeObject` | sia/envelope.go:46-76 | the sticky-error reader yields what the early-exit parser does, an error, or a panic on nothing at all |
| `Envelope.DecodeSlab` | sia/envelope.go:93-114 | the same for a slab: no field is taken from bytes that are not there |
| `Envelope.TruncatedObject` | sia/envelope.go:46-76 | every non-empty proper prefix of an encoded object is refused |
| `Envelope.TruncatedSlab` | sia/envelope.go:93-114 | every non-empty proper prefix of an encoded slab is refused |
| `Envelope.SlabRoundTrip` | sia/envelope.go:79-114 | a slab decodes to itself exactly when its two counts fit sixteen bits |
| `Envelope.PanicsExactlyOnEmpty` | sia/envelope.go:46-50 | the decoders index past the end for the empty input and for no other |
| `Envelope.SplitLocation` | sia/location.go:49-62 | the object's own half, and one shared half for each slice in order |
| `Envelope.JoinLocation` | sia/location.go:93-117 | joining is the specified join of the cached halves, with every missing or malformed half refused |
| `Envelope.SplitThenJoin` | sia/location.go:49-117 | splitting and joining gives back the object exactly when its counts fit their fields, given that digests tell slabs apart |
| `Locations.JoinedIsSplit` | sia/location.go:93-117 | an object's own half joined with whatever shared halves are held, whoever stored them last, gives back the object that was split, or nothing exactly when one of its slabs' halves is missing |
| `Locations.SplitAllIsTrue` | sia/location.go:49-62 | splitting every object's location, with digests that tell slabs apart, yields halves of which that holds |
| `Reachability.CheckReachable` | sia/location.go:125-147 | metadata passes exactly when every slab has, on hosts still listed, as many sectors as the reader will take |
| `Reachability.HostSet.KnownHosts` | sia/location.go:156-180 | the last fetched host set while it is recent, otherwise every listed host and no other; a fetch that fails changes nothing, and while no call fails there is always a set |
| `Reachability.FetchHosts` | sia/location.go:164-178 | paging through the host set collects every listed host and no other, comes to an end, and gives up only when a page fails |
| `Reachability.ListedAre` | sia/location.go:135-140 | the reader keeps every sector on a listed host, as often as it is there, and no other |
| `Base64.RoundTrip` | manifest/lines.go:32-34 | base64 decodes what it encoded, padding included, for every length |
| `Base64.Truncated` | manifest/lines.go:53-56 | a cut base64 text is refused or decodes to a proper prefix of the data |
| `Base64.DecodedIsWhole` | manifest/lines.go:53-56 | a text that decodes at all is whole groups of four, padded nowhere but at the end |
| `ManifestLines.ReadEntries` | manifest/lines.go:44-74 | the loop builds the map and order of replaying the file's entries, or fails where the file cannot be read |
| `ManifestLines.PutListing` | manifest/lines.go:66-69 | one more entry replaces the earlier one in its place, or joins at the end: last writer wins, first-seen order |
| `ManifestLines.WholeFileReads` | manifest/lines.go:20-74 | a file of sealed lines reads as the entries written exactly when every line fits the scanner's buffer, and otherwise not at all |
| `ManifestLines.TornFile` | manifest/lines.go:41-64 | what reading a file cut at any byte returns: the entries of a clean prefix, or an error |
| `ManifestLines.RecoveredExactly` | manifest/lines.go:41-64 | a cut file is readable exactly when the cut is at a line's end or just before its newline |
| `ManifestLines.AppendCut` | manifest/log.go:81-99 | what a file reads as when only part of one more line was written: as before, with the entry too, or not at all |
| `ManifestLines.CutThenMore` | manifest/log.go:81-99 | whole lines written behind a cut one are read, with all before them, exactly when the cut left nothing or everything; with none written, also when only the newline was lost |
| `KeyedLog.ReplayFind` | manifest/manifest.go:52-64 | after any log, a key has its last entry, and a key the log never names keeps what it had |
| `KeyedLog.ReplayTwice` | manifest/snapshot.go:76-82 | replaying a log again over its own result changes nothing, which is why install-then-truncate is safe |
| `KeyedLog.ReplayKeepsKeys` | manifest/manifest.go:52-64 | replaying never moves or drops a record already listed |
| `KeyedLog.ReplaySum` | manifest/snapshot.go:94-143 | folding a log in never makes a snapshot larger than the snapshot and log folded |
| `KeyedLog.UpsertSum` | manifest/manifest.go:52-64 | one more entry makes a snapshot larger by no more than its own line |
| `Manifest.Log.Append` | manifest/log.go:81-99 | one sealed line more on the log and its bytes on every counter, nothing else touched |
| `Manifest.Log.FailAppending` | manifest/log.go:81-99 | the log after a write that stopped at any byte of the line, or a sync that failed behind it, with what it then reads as; no counter moves |
| `Manifest.Log.Replay` | manifest/log.go:107-136 | over any two files: the snapshot and then the log over it, as a map and first-seen order; over files in order it fails exactly when some line is too long |
| `Manifest.Log.Compact` | manifest/snapshot.go:94-143 | what is on disk after stopping anywhere before the rename, before or after the truncation, or finishing; what the counters say, and what was really written; finishing puts any files in order |
| `Manifest.Manifest.Append` | manifest/manifest.go:42-64 | the catalog gains the entry in the map's sense and disk and memory still agree; it compacts exactly when the line makes the log reach the floor and pass a quarter of the snapshot, so after a success the log is under the floor or at most that quarter; the amortised bound is kept however the compaction ends, and what a failed one wrote is all that is not counted |
| `Manifest.Manifest.Remove` | manifest/manifest.go:72-80 | a held record becomes a tombstone in its place; removing what is absent or gone is an error and changes nothing; the log's size and the amortised bound are kept as by an append |
| `Manifest.Manifest.Lookup` | manifest/manifest.go:83-92 | finds a record exactly when it is held and not removed |
| `Manifest.Manifest.Entries` | manifest/manifest.go:95-120 | the records not removed, in first-seen order |
| `Manifest.Manifest.Compact` | manifest/snapshot.go:83-92 | compacting, however it fails, changes nothing the catalog holds; once it succeeds disk and memory agree, whatever a failed append had left on disk |
| `Manifest.FoldedDisk` | manifest/snapshot.go:76-82 | a snapshot of the replay reads back as itself, whether or not the log it folded is still there |
| `CatalogRuns.Load` | manifest/manifest.go:28-34 | loading gives the replay of the disk, and fails exactly when an entry on it is too long for a line |
| `CatalogRuns.LoadAfterDying` | manifest/log.go:81-136 | after a process died inside an append the catalog loads exactly when nothing, or all but the newline, of the line was written, and then holds everything it did and the new entry in the second case |
| `CatalogRuns.LiveOn` | manifest/log.go:81-99 | an append fails and the process goes on: memory has the later entries and not that one; when the next load fails, and when it has that one besides them |
| `CatalogRuns.DieThenWriteOn` | manifest/log.go:81-136 | a process dies in an append and the next one appends on: when the load after that succeeds and with what; it fails where the first had not exactly when only the newline was lost and anything was appended |
| `CatalogRuns.Run` | manifest/manifest.go:28-80 | any run of appends, removals, compactions cut anywhere, reopenings and deaths in an append leaves what a plain ordered map would hold, each such append counting exactly when its line was written; unless a line was too long or was written in part |
| `CatalogRuns.StaysGone` | manifest/manifest.go:72-80 | a removed record stays gone over any run that does not append it again |
| `CatalogRuns.RemoveIsGone` | manifest/manifest.go:72-80 | removing a held record makes it gone and touches no other |
| `CatalogRuns.WriteAll` | manifest/manifest.go:42-80 | over any run of appends and removals, with every triggered compaction succeeding or failing anywhere, the bytes counted as written never exceed six times the bytes appended plus five times the log found at open; the bytes really written are those and what failed compactions wrote, so the same exactly when none failed after its first byte |
| `CatalogRuns.FailEachTime` | manifest/snapshot.go:106-143 | while every compaction fails with its snapshot written, each append of a record already held writes its line and the whole catalog, and the counters show the lines |
| `CatalogRuns.FailuresPassAnyMultiple` | manifest/snapshot.go:136-143 | so enough appends write more than any multiple of what was appended and found at open that is smaller than the catalog is to one line |
| `IndexFile.EntryRoundTrip` | index/persist.go:307-389 | an entry decodes to itself exactly when its name and width fit the fields they are written in |
| `IndexFile.ReadEntries` | index/persist.go:334-363 | the loop returns the entries before the first damage |
| `IndexFile.TornFile` | index/persist.go:334-363 | cut at any byte, a file yields exactly the entries lying wholly before the cut |
| `IndexFile.AppendedAfterCut` | index/persist.go:129-152 | entries appended after one cut at byte k are all read exactly when there are none or nothing or all of it was written; otherwise none ever is |
| `IndexFile.TornIsHopeless` | index/persist.go:334-363 | after a cut append, whatever whole entries follow, the file reads as it did before it |
| `IndexStore.Store.Append` | index/persist.go:129-152 | over files in any state: an undamaged delta gains the entry; behind a cut append nothing read from disk changes; an entry whose width contradicts its vector is refused |
| `IndexStore.Store.AppendAfterDying` | index/persist.go:129-152 | a process dies in an append, the next appends more: what it appended is read back exactly when there was none or the cut left nothing or all of the first entry |
| `IndexStore.Store.Hydrate` | index/persist.go:160-195 | for any bytes in the two files: base then delta, each up to its first damage, later entries in place, withdrawn records dropped |
| `IndexStore.Store.Compact` | index/persist.go:231-277 | what base and delta hold after stopping before the rename, before the truncation, or finishing |
| `IndexStore.Store.Fold` | vault/vectors.go:39-48 | folding, wherever it stops and whatever damage the delta holds, leaves hydration returning the identical sequence; a completed fold empties the delta, with all that was unreadable in it |
| `IndexStore.HydratedFinds` | index/persist.go:160-195 | a record has the vector last written for it unless that withdrew it |
| `IndexStore.FoldingIsInvisible` | index/persist.go:225-277 | hydrating a base written from hydration gives the same sequence whether or not the delta was emptied |
| `IndexStore.VectorsNeverReturn` | index/persist.go:225-277 | after a fold, however it ended, and whatever is appended next, every record reads as it would have without the fold |
| `MatchHeap.Heap.Pop` | index/search.go:63-73 | removes and returns a least-scoring match and keeps the rest a heap of the same matches |
| `MatchHeap.Heap.ReplaceLeast` | index/search.go:39-42 | replaces the least match by another and restores the heap in place |
| `MatchHeap.RootIsLeast` | index/search.go:63-66 | nothing in a heap scores below its root |
| `VectorIndex.Index.Add` | index/index.go:58-76 | the matrix holds the vector in the record's row or a new last one; a foreign model or width is refused; map, list and matrix stay consistent |
| `VectorIndex.Index.Search` | index/search.go:21-52 | min(k, n) distinct held records in descending score, with nothing left out scoring above any returned |
| `VectorIndex.OverwriteRow` | index/index.go:67-70 | overwriting one row of the flat matrix changes that record's vector and no other |
| `Vectors.Searchable.Open` | vault/vault.go:179-252 | the index opens as the usable rows of what the files hydrate to, a cut append included |
| `Vectors.Searchable.PutVector` | vault/vectors.go:16-48 | files and index gain the vector together, and the files are folded exactly when the line makes the delta reach the floor and pass a quarter of the base; behind a cut append only the index gains it, and what the next open will find does not change, but a fold that succeeds puts the delta in order |
| `Vectors.Searchable.Forget` | vault/reclaim.go:235-246 | the files withdraw the vector and the index disagrees on that record exactly if it held it; behind a cut append the files do not withdraw it either |
| `Vectors.PutMirrors` | vault/vectors.go:16-31 | a put does to the index's rows what the appended entry does to what hydration returns, position and all |
| `World.FramedEnvIsSound` | vault/fetch.go:217-230 | a record framed under its id and sealed is recovered with its own id, kind and bytes |
| `World.HeldIsKept` | store/packer/packer.go:88-206 | in a safe state a record that is queued or catalogued is queued as it was sealed or stored at a readable object holding it |
| `World.DeletedSafe` | store/reclaim/reclaim.go:312-315 | deleting an object no entry names keeps every entry at a readable object holding its payload |
| `World.UnpinnedSafe` | store/reclaim/reclaim.go:504-519 | releasing a slab no entry names keeps every entry at a readable object holding its payload |
| `Ledger.PinnedOnceIsPinned` | local/slabs.go:60-73 | after any track and adopt calls a slab is releasable exactly when it already was or some call pinned it |
| `Ledger.OrderIrrelevant` | local/slabs.go:60-73 | the order of track and adopt calls does not matter |
| `Sweeping.RefusedExactly` | store/reclaim/reclaim.go:189-228 | a catalog's keep-set is refused exactly when the catalog is empty with slabs tracked and no release asked for, or when two records share an object |
| `Sweeping.RefCount` | store/reclaim/reclaim.go:215-219 | a keep-set names as many objects as there are records exactly when no two share one |
| `Sweeping.PlanSweep` | store/reclaim/reclaim.go:81-110 | dead is what sits on our slabs unnamed, releasable is our slabs with nothing named on them, and the rest is counted |
| `Vault.Device.Upload` | sia/upload.go:59-97 | each payload is at a fresh ref of its own, and no earlier ref denotes anything new |
| `Vault.Device.PutBatch` | store/store.go:75-115 | a completed batch is readable, each payload at its own fresh ref, with its slabs pinned and no others; nothing is listed before its slab is pinned, wherever it stops |
| `Vault.Device.DeleteObjects` | sia/pin.go:82-86 | some of the objects are deleted and no others; all of them when it succeeds |
| `Vault.Device.Unpin` | store/reclaim/reclaim.go:510-519 | the slab is released, then leaves the ledger, then its shared location half goes; it may stop between any two |
| `Vault.UnpinStrands` | store/reclaim/reclaim.go:262-270 | releasing a slab strands exactly the readable objects listed on it, no more and no fewer |
| `Reclaim.LiveSet` | vault/reclaim.go:68-89 | the keep-set names every catalogued object and slab, and the number of records |
| `Reclaim.Sweep` | store/reclaim/reclaim.go:280-329 | exactly the dead objects and spare slabs go, each slab with its place in the ledger and its shared location half, or part of that when a call fails; nothing catalogued goes, no hydrated slab is released, and at no moment does an object lie on a slab released from under it; it refuses while records are queued or when its keep-set cannot be trusted |
| `Reclaim.ReleaseOrphans` | store/reclaim/reclaim.go:346-482 | releases exactly the pinned slabs no readable object is on, whatever their ledger origin, or some of them when a call fails, and refuses only an account that looks wholly empty |
| `Reclaim.DropUnreadable` | store/reclaim/reclaim.go:490-502 | deletes what the walk reports unreadable, which with no event overtaken is what does not open and nothing else |
| `Repack.RepackAll` | store/reclaim/repack.go:80-184 | refuses while records are queued or unless every slab under the records is ours; otherwise ids, kinds, CIDs and payloads are kept, every object is new, and objects, pinned slabs, ledger, location cache and what is stranded are exactly what the new homes and the released slabs make them; every slab a record then lies on is ours, so repacking again is not refused; at every state passed a record at a new object lies on a slab already in the ledger as ours; with no failing call it completes, and with the network down it changes nothing |
| `Repack.Relocate` | vault/reclaim.go:132-151 | the catalog points each record at its rewritten object and drops the old one's cached half; cut anywhere, each entry is the old one or the new one |
| `Repack.StrandsExactly` | store/reclaim/repack.go:163-176 | what is newly unreadable after a repack equals the uncatalogued objects that shared a slab no record landed back on |
| `Repack.ForgettingMakesBystanders` | vault/reclaim.go:228-246 | forgetting one of two records on a slab leaves behind an object that the next repack strands |
| `VaultRecords.PairsExactly` | vault/remember.go:239-248 | pairing written objects by CID gives every queued record its own object exactly when no two share a CID |
| `VaultRecords.RecordFlush` | vault/remember.go:239-283 | each record of the batch is catalogued at the object written for it, and the ledger gains exactly the slabs written, as ours; no other entry changes |
| `VaultRecords.Forget` | vault/reclaim.go:235-246 | the record leaves the catalog, then its body leaves this device; no other record is touched, and the object stays; a record the catalog does not hold is an error and nothing changes |
| `VaultRecords.HydrateAll` | vault/hydrate.go:131-256 | in full when no call fails: the catalog becomes the replay of the listed objects that open as ours, the ledger gains the slabs they lie on and gives no right to release by it, and each body not yet held is kept; part way, every entry, slab and body is an old one or one of those |
| `VaultRecords.Fetch` | vault/fetch.go:63-230 | which tier answers, exactly: this device if it holds the body, the cached location if both halves are held and recent, every slab passes the reach check and the object can be read, the indexer otherwise; the exact kind and bytes sealed, the body then held and nothing else, and exactly which location is then cached or dropped; a catalogued record is never unopenable, and unreachable only while the network is |
| `VaultRecords.FetchCached` | vault/fetch.go:134-199 | answers exactly when both halves are held and recent, the location passes the reach check and the object can be read, with the asked object's own payload whichever slab-mate stored the shared half; a location tried in vain is dropped, its own half and its slabs', and one not tried stays |
| `VaultRecords.DownloadAt` | sia/location.go:77-91 | downloads exactly when the host set is known, every slab of the location has enough sectors on listed hosts, the network is up and the object can be read; and then the payload of the object the halves were split from |
| `VaultRecords.CacheLocation` | vault/fetch.go:176-187 | the cache gains exactly the object's own half and the shared half of each of its slabs, these stored first |
| `VaultRecords.FetchRemote` | vault/fetch.go:105-128 | the cached location answers exactly when it can, the indexer is asked otherwise and its location cached; no answer only while the network is down or the object cannot be read |
| `VaultRecords.ClaimSlabs` | local/slabs.go:115-125 | every hydrated slab becomes releasable and none enters or leaves the ledger |
| `VaultRuns.Run` | vault/remember.go:154-230 | over any run of remember, flush, forget, hydrate, repack, sweep, orphan release, unreadable drop, fetch, eviction, with other processes at the queue between the steps of a flush and other writers on the account, cut short anywhere: every state passed is safe, and every record queued or catalogued at its start or at the end of any operation is from then on queued as sealed or catalogued at a readable object holding it, until forgotten; an operation reporting a record remembered ends with it so held; without a repack no object is stranded |
| `VaultRuns.Crash` | store/reclaim/repack.go:64-79 | a process that dies finds on return a state the operation passed through |
| `ChangeFeed.WalkObjects` | sia/objects.go:65-137 | paging through the feed reports the live objects in first-seen order, counts what was superseded, and collects what would not open |
| `ChangeFeed.WalkIsLive` | sia/objects.go:48-61 | a walk yields exactly the keys whose last event leaves a readable object, each once |
| `ChangeFeed.UnreadableIsCurrent` | sia/objects.go:109-114 | the keys reported unreadable are those whose last event says so exactly when no such event was overtaken by a last event that says otherwise |
| `ChangeFeed.LiveIsDropped` | store/reclaim/reclaim.go:490-502 | deleting what is reported unreadable deletes an object the same walk lists as live exactly when an event was overtaken by one that found the object readable |
| `Hydration.HydrationRebuilds` | vault/hydrate.go:131-222 | on an empty device, for any feed history that ends with one readable object per record, hydration rebuilds the same ids at the same kinds, objects, slabs and CIDs |
| `Queue.QueueTable.Enqueue` | local/queue.go:32-46 | a new row goes to the end; an existing one keeps its place, kind and claim and takes the new content |
| `Queue.QueueTable.ClaimQueued` | local/queue.go:95-145 | takes every free or expired row, or the earliest of them up to the limit, stamps exactly those, and returns them in arrival order |
| `Queue.QueueTable.EachQueued` | local/queue.go:162-184 | one statement for each id in a transaction: every named row is changed as the statement says and no other, or, when any of them or the commit fails, none is |
| `Queue.QueueTable.ReleaseQueued` | local/queue.go:148-184 | all of the named rows are handed back or none is, and once they are, any claim at any time may take them |
| `Queue.QueueTable.DropQueued` | local/queue.go:158-184 | all of the named rows leave the table or none does, and no other row changes |
| `Queue.QueueTable.Summarise` | local/queue.go:60-80 | the number of rows, their total size, and the oldest and newest time |
| `FlushProtocol.NothingQueuedIsLost` | store/packer/packer.go:88-206 | under any interleaving of any number of processes that add, claim, write, fail and die, every enqueued record is in the queue as enqueued or catalogued at an object holding its own frame |
| `FlushProtocol.ClaimIsRespected` | local/queue.go:82-113 | a claimed row is claimed again only after the grace period, unless it was handed back or dropped in between |
| `FlushProtocol.ExpiryFreesEverything` | local/queue.go:84-90 | however its holders ended, every row can be claimed once the grace period has passed |
| `FlushProtocol.QueueDrains` | store/packer/packer.go:157-217 | from any reachable state, wherever processes stopped, any one of them can go on alone to an empty queue with every record ever enqueued on the network |
| `FlushProtocol.DropKeeps` | local/queue.go:152-160 | dropping last is what makes it safe: every record dropped is already catalogued |
| `FlushProtocol.ReEnqueueLosesExactly` | local/queue.go:36-41 | from any reachable state, re-enqueueing a record with a new payload can lose it on some continuation exactly when some process is writing or cataloguing a batch that holds the old one |
| `FlushProtocol.PairedIsOwn` | vault/remember.go:240-248 | with distinct CIDs in a batch each record is paired with the object written for it |
| `Packer.Packer.Flush` | store/packer/packer.go:157-217 | over the vault itself, with other processes claiming, handing back and adding rows between its steps: a completed flush takes exactly the rows free to be taken and leaves each record out of the queue at a fresh object of its own on a slab of ours, with the count matching the table; however it ends no row is lost, no other entry, body or cached location changes, and nothing is deleted or released; each way of ending says what it leaves of the claim and, with nobody else there, the exact queue: a refused write hands every row back, a failed hand-back is an outcome of its own, and a row written but not catalogued keeps its claim |
| `Packer.RefusedThenAgain` | store/packer/packer.go:182-191 | after a refused write, a flush at any later time, whoever was at the queue meanwhile, finds at least the same rows, and if it completes each is catalogued at a fresh object and out of the queue |
| `Packer.Packer.Add` | store/packer/packer.go:92-120 | it flushes exactly when the count with this record makes the queue due and there is a connection; once queued the record is waiting or catalogued, however a flush it triggers ends; the count of a new, newest record matches the table, and left waiting the table is under every threshold in force |
| `Packer.DueExactly` | store/packer/policy.go:84-101 | with a right count a flush is due exactly when something waits and the rows together reach a limit in force, one has waited too long, or none has come for too long |
| `Packer.Packer.Remember` | vault/remember.go:154-175 | the body is kept on the device first and no other is touched; once queued, the record is waiting or catalogued however it ends |
| `VaultQueue.ClaimRows` | store/packer/packer.go:162-169 | one durable statement claims every row free to be taken and returns them in arrival order, or nothing changes |
| `VaultQueue.DropRows` | store/packer/packer.go:203-205 | rows are dropped only once their records are catalogued, all or none |
| `VaultQueue.Others` | local/queue.go:32-184 | whatever other processes claim, hand back or add, no row goes and nothing but the queue changes, at every state passed |
| `Packer.ForgetThenFlush` | vault/reclaim.go:235-246 | a record forgotten and then flushed past is catalogued again exactly when its row was there for the flush to take |
| `Splitting.SplitMessages` | record/chunk.go:96-120 | the messages in order, in non-empty groups that fit the target or hold one message, none closed while its next message fitted |
| `Splitting.GreedyIsUnique` | record/chunk.go:90-120 | those promises leave exactly one split of any messages |
| `Transcript.StartChunk` | vault/session_load.go:158-172 | the chunk a replay opens first is the first with the message at an end, or the first of all |
| `Transcript.ReadPage` | vault/session_load.go:113-143 | for any ids, repeated or not: it fails exactly when a chunk it opens before the page is full cannot be read, naming the first; otherwise the page is the messages from where the replay lands, as many as asked, with where the next begins; an id never met is an error |
| `Transcript.ReadAll` | vault/session_load.go:113-143 | following each page's next id with any page sizes reads the whole transcript, every message once and in order, and ends, when no id is repeated |
| `Transcript.FollowPages` | vault/session_load.go:113-143 | the loop a reader runs gathers exactly the specified run of pages, and goes on exactly as long |
| `Transcript.PagesArePlaces` | vault/session_load.go:113-143 | for any ids, the messages a run of pages hands over are those at the places where each next id lands |
| `Transcript.PagingReadsExactly` | vault/session_load.go:113-143 | pages of any sizes, one after another, read a beginning of the transcript, and all of it by the page that says there is no more, exactly when no id is repeated and none after the first is empty |
| `Transcript.PagingEndsExactly` | vault/session_load.go:113-143 | following pages of any sizes comes to an end exactly when no id after the first is empty and every earlier message with a repeated id lies before the chunk a replay for that id starts at |
| `Transcript.NotBefore` | vault/session_load.go:145-172 | with no id repeated, every message is found at its own place, boundary start included |
| `Transcript.InPlaceExactly` | vault/session_load.go:145-172 | every message is found at its own place exactly when no id is repeated and none after the first is empty |
| `Transcript.NoneEarlyExactly` | vault/session_load.go:145-172 | no message is found before its own place exactly when no id after the first is empty and every earlier message with a repeated id is passed over |
| `Transcript.FoundSomewhere` | vault/session_load.go:158-172 | for any ids, a message's id finds some message of the transcript |
| `Sessions.RepeatedIdGoesRound` | vault/session.go:286-307 | three saves the append check admits, after which paging by four is handed the same id for ever |
| `Heads.HeadTable.PutSessionHead` | local/sessions.go:75-111 | swaps the head in exactly when the row is at the version its writer read, or there is no row |
| `Heads.ChunkAppends` | vault/session.go:113-131 | writing a chunk adds its messages at the end of the transcript and keeps refs, counts and sequence numbers true |
| `SessionRuns.TranscriptIsTheCommittedSaves` | vault/session.go:97-195 | under any interleaving of saves, links, flushes, reads and forgets step by step, the versions behind a stored head are consecutive, each chunk list extends the last, the messages written for it are the saves behind it in order, a save keeps every link and a link adds one, and counts and refs agree; while the row is never dropped those are all the committed saves; each chunk can be read unless some forgetting set out to drop it |
| `SessionRuns.LinksStay` | vault/session_load.go:252-264 | from any reachable state and under any interleaving, the links of the stored head stay, in order, until the row is dropped: always if it never was, and otherwise once no writer under way read it before the last drop |
| `SessionRuns.LinkIsLostExactly` | local/sessions.go:75-111 | in any reachable state the only step short of a drop that takes a link away is the commit of a writer that read the row before a drop, over a row come back at that version |
| `SessionRuns.CommittedLinkIsErased` | local/sessions.go:75-111 | and from any state with a row some run comes to that |
| `SessionRuns.CommitOk` | local/sessions.go:75-111 | what a draft commits is the transcript of the row it read and its own save |
| `SessionRuns.CommitsOverExactly` | local/sessions.go:75-111 | a commit goes through exactly when the row is the one its writer read, unless the row was forgotten since; then exactly when there is no row or one at the version read, built on or not |
| `SessionRuns.ForgottenComesBack` | vault/session.go:561-588 | from any state with a row: read, forget every chunk and the head, write, commit brings back a head naming every chunk there was and the new one, of which only the new one can be read |
| `SessionRuns.Forgets` | vault/session.go:561-588 | forgetting takes away the bodies and catalog entries of exactly the chunks the head named and then the row, and no row of the queue |
| `SessionRuns.CanBeReadExactly` | vault/fetch.go:63-81 | some continuation reads every chunk a head names exactly when each is readable, waits in the queue, or is being fetched by a reader that found its entry |
| `SessionRuns.CommittedSaveIsErased` | local/sessions.go:75-111 | from any state with a row, one forget under two writers loses a save its writer was told is committed |
| `Sessions.ValidateAppend` | vault/session.go:286-307 | a batch passes exactly when it repeats no id of its own and none at a chunk boundary |
| `Sessions.Device.SaveSession` | vault/session.go:97-167 | a save adds one version, one chunk for each group of the split and exactly these messages to the transcript, and changes nothing else of the head it opened, its links included; every other outcome leaves heads and chunks alone, and no written chunk ever changes |
| `Sessions.Device.ForgetSessionHead` | local/sessions.go:142-148 | one head goes and every other stays true of its chunks |
| `Sessions.Device.LinkMemory` | vault/session_load.go:252-264 | adds the link once and one version, and nothing else of the head changes |
| `Rebuild.RecordIds` | vault/rebuild.go:214-237 | the chunk ids of catalog and device, each once |
| `Rebuild.GroupBySession` | vault/rebuild.go:168-203 | every readable chunk under the session it names, and the unreadable ones counted |
| `Rebuild.SortBySeq` | vault/rebuild.go:199-201 | in order of sequence number, with equal numbers as they stood and nothing added or dropped |
| `Rebuild.RebuildHead` | vault/rebuild.go:296-366 | the head these chunks make: refs by position, counts, bytes and last message |
| `Rebuild.RestoresExactly` | vault/rebuild.go:296-374 | the rebuilt chunk list is the committed head's exactly when the chunks found are the head's own, and then counts and last message are too |
| `Rebuild.RebuildRestores` | vault/rebuild.go:161-237 | for chunks found in any order in either place, the rebuilt head is the committed one exactly when the ids found are the ones it names |
| `Rebuild.GapIsMissingNumber` | vault/rebuild.go:245-252 | the gap report is false exactly when the chunks found carry the numbers 0 to n - 1, each once |
| `Rebuild.GapSeesStrays` | vault/rebuild.go:245-252 | given all the head's chunks and any strays, the gap report is false exactly when the strays' numbers carry on from the head's, each once |
| `RebuildRuns.DiesBeforeCommit` | vault/session.go:113-167 | from any reachable state with a row, a writer that dies between its chunk and its commit leaves the row as it was and in the store a chunk numbered after the head's last, which the head does not name |
| `RebuildRuns.StrayIsTakenIn` | vault/rebuild.go:296-374 | a rebuild then makes the head that writer never committed, one chunk longer than the stored one, and reports no gap |
| `Rebuild.RebuildSessions` | vault/rebuild.go:121-159 | a head for every session some readable chunk names, each from its own chunks, with its gap reported |
| `Rebuild.ReportOrigins` | vault/rebuild.go:149-155 | folding in every head's verdict gives the specified merge |
| `Rebuild.VerdictIsWeakest` | vault/rebuild.go:617-624 | the verdict on a field over many heads is one some head gave, and none gave a weaker |
| `Fusion.Fuse` | recall/fuse.go:69-103 | the pool is the union in vector order then lexical order, each record at what the best rank each pass gave it earns |
| `Fusion.BetterRankEarnsMore` | recall/fuse.go:73-84 | in either pass a better rank earns strictly more, and always something |
| `Fusion.LargerWeightEarnsMore` | recall/fuse.go:84 | and a larger weight earns more at the same rank |
| `Fusion.AheadDeservesMore` | recall/fuse.go:54-103 | a record that neither pass puts behind another, and one with a say puts ahead of it, scores strictly more |
| `Fusion.AgreementBeatsFirst` | recall/fuse.go:18-21 | with passes of equal say, a record both have among their first 61 beats one that is first in one alone, and one neither has there does not |
| `Fusion.TermsAloneStayBehind` | recall/fuse.go:23-50 | at the default weight, what only the lexical pass found stays behind the first 1973 matches, and its first result goes ahead of any later one |
| `Fusion.UnionHoldsAll` | recall/fuse.go:59-68 | the pool holds every record either pass found, once each, vector results first |
| `Ranking.BoostIsBounded` | recall/filter.go:109-137 | for weights of either sign, no filter moves a record up by more than the positive ones together or down by more than the negative ones |
| `Ranking.MoreCarriedIsMore` | recall/filter.go:109-137 | with positive weights, carrying every wanted tag another record carries and being of a wanted type if it is earns no less, and the same exactly when both agree on all of that |
| `Ranking.AllIsWorthTheWeights` | recall/filter.go:84-137 | carrying every wanted tag and being of a wanted type earns the two weights, or the default ones when none are set; carrying and being none of it earns nothing |
| `Ranking.BoostOf` | recall/filter.go:109-137 | the loops compute the share of wanted tags carried and whether the type is wanted |
| `Ranking.Rank` | recall/pipeline.go:323-356 | the best k of the kept candidates by score then id; kept, superseded and out of scope add up to the pool |
| `Ranking.RankingIsUnique` | recall/pipeline.go:345-351 | there is one ranking of any pool of distinct records |
| `Ranking.PoolOrderIsIrrelevant` | recall/pipeline.go:323-356 | the ranking does not depend on the order the pool came in |
| `Ranking.ShorterIsPrefix` | recall/pipeline.go:352-354 | of two rankings of the same records in any order, the one cut shorter is the beginning of the other |
| `Ranking.RankTwice` | recall/pipeline.go:323-356 | asking for few and then for more, over pools in any order, gives an answer that begins the other |
| `Ranking.Recall` | recall/pipeline.go:205-215 | weighing, fusing and ranking joined: the ranking of exactly the union of the passes, less what is superseded or out of scope, cut to k; without a filter every record stands after those its ranks put it behind, and with the lexical pass silenced too the kept matches come back in match order |
| `Ranking.AheadRanksFirst` | recall/pipeline.go:323-356 | a record ahead of another by its ranks, and moved no less by the filter, is ranked before it |
| `Ranking.FilterRemovesNothing` | recall/pipeline.go:307-343 | whatever the filter, the same candidates are ranked |
| `Ranking.GapStands` | recall/filter.go:60-82 | for weights of either sign, a lead in fused score wider than the furthest up and the furthest down together cannot be overturned by any filter |
| `Ranking.TwelvePlacesStand` | recall/filter.go:40-82 | at the default weights the first match leads one d places behind it by more than any filter moves exactly when d is 12 or more |
| `Ranking.FusedIsRankable` | recall/pipeline.go:210-215 | fusion hands ranking each record of the union once, with scores not yet moved |
| `InFlight.NilMeansEveryCallSucceeded` | sia/concurrent.go:19-76 | nil is returned exactly when every index was called once and every call succeeded |
| `InFlight.WhyItFails` | sia/concurrent.go:44-76 | one error is reported for each call that failed; it fails for no other reason but that its caller cancelled |
| `InFlight.NeverMoreThanLimit` | sia/concurrent.go:23-54 | calls begun and not yet come back never exceed the clamped limit |
| `InFlight.NeverStuck` | sia/concurrent.go:56-67 | in every reachable interleaving some step of the pool is enabled until it returns, even when all workers have failed |
| `InFlight.AlwaysEnds` | sia/concurrent.go:56-75 | no run is longer than 3n + limit + 3 steps, so every maximal run returns |

## Left out

- Encryption, compression, hashing, key derivation, embedding: abstract functions with the assumptions above.
- The network client and its SDK: steps that fail at will, before or after taking effect.
- SQL text, SQLite, migrations and full-text scoring: each table is a map and each statement one atomic step.
- MCP surface, prompts, rendering, command line, demo: interface code.
- Timers, read statistics, quota figures (`Watermark`, `Freed`, `Stats`): reported, never decided on here.
- Validation limits, string trimming, titles, tags and the other descriptive fields of a head.
- An entry whose object ref does not parse (`vault/reclaim.go:77-81`): refs are values here, so the branch has no counterpart.
- Several framed records in one object: hydrating walks them in the source; the walk itself is `Frames.WalkBlob`, the vault model holds one record to an object.
- Ranking metadata and vectors written while hydrating, and lineage edges between sessions: easy members beside the ones modelled.
- Embedding a query, searching by term and fetching the hits around the ranking (`recall/pipeline.go:177-241`): the stages between are joined in `Ranking.Recall`.
- Carriage returns: Go's base64 decoder skips them and its line scanner strips one; encoded lines hold none.
- `Unledgered` (`store/reclaim/reclaim.go:420-452`): a report that changes nothing.
- Vault.Device.Attempt: a local write that fails part way through several rows is modelled as one that failed before or after all of them.
- Packer.Packer.Flush: other processes act on the queue after the claim, after the write and after cataloguing, and do not catalogue; any number of whole flushes interleaved step by step is `FlushProtocol`, over payloads.
- Packer.Packer.Add: a record enqueued again under its old id is counted twice in memory; the count is promised for new records only.
- VaultRecords.Fetch: whether a cached half is recent, and the host set at that moment, are given; the set is `Reachability.HostSet.KnownHosts`. What the indexer says of where an object lies does not change in the model.
- Sessions.Device.SaveSession: one process at a time, with the chunk ids it will draw given beforehand; interleaved writers are `SessionRuns`.
- IndexStore.Store.Append: takes one entry at a time, and one whose model name and width fit their fields.
- IndexStore.Store.DieAppending: the first append cut short; a second one cut behind it is not modelled, nor is damage to the files of any other kind once something is written after it.
- CatalogRuns.Run: ends at an append that was written in part; what follows there is `CatalogRuns.LiveOn` and `CatalogRuns.DieThenWriteOn`, up to the next compaction or load.
- SessionRuns.Forgets: the chunks and the head; the session's vector, ranking metadata and the parent's edge to it are left out, and a chunk's body and queue row are written in one step.
- VaultRecords.HydrateAll: hydrates to full depth, one record to an object.
- Vectors.Searchable.Forget: the vector half of forgetting; the catalog and body half is `VaultRecords.Forget`.
- Rebuild.RebuildHead: omits tokens, times, models, links and titles, which are copied or summed field by field.
- Rebuild.RebuildSessions: omits keeping or overwriting heads the device already stores.
