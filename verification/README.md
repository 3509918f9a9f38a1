# Verified model of the bvault export, analysis queue and USB transfer

bvault turns a music library into a USB stick that CDJs can read: a gateway queues
analysis jobs, workers analyse tracks and store the results, an export renders a
`export.pdb` database and ANLZ analysis files, and a client transfers them to the stick.
This project models that code in Dafny and proves what it promises. Mutable objects of
the source are classes here, its loops are loops, and each is proved against a function
or a state machine about which the main results are lemmas.

`dafny verify dfyconfig.toml` checks everything.

- **The database writer.** `DeviceString`, `Page`, `Layout`, `PdbWriter`, `Tracks`,
  `RowCodec`, `Library` and `PdbBuilder` follow `string.rs`, `page.rs` and `pdb.rs` from
  adding a track to the bytes of the file: interned names, rows, the page allocator with
  its heap and backward row index, greedy pagination over 20 tables, page and sequence
  numbers, and the passes that patch finished pages. `PageReader` and `FileReader` are an
  independent reader of the format, `PageGraph` states the shape of the file, and
  `ExportReads` joins both ends: what a reader finds after any sequence of adds.
- **The validator.** `Validator` and `ValidatePdb` follow `validate.rs` and prove exactly
  what it says of built files.
- **The analysis queue.** `JobQueue`, `ArtifactStore`, `AnalysisWorker` and `Batches` are
  the job table, the bundle store, the worker and the gateway as objects. `LeaseProtocol`
  puts any number of workers, the clock, crashes at any step and re-submissions into one
  state machine and proves its invariants over all runs; `Recovery` and `Interleaving`
  prove that a redo after a crash finishes the work, alone and among others, and that the
  worker's lease discipline is exactly what the safety results need. `Attempts` bounds the
  attempts of a job, and `Blocking` says exactly when claims of a kind are stuck.
- **The transfer.** `SafSink`, `ContentHash` and `Reconcile` follow the URI cache, the
  streaming hash and the write-then-rename loop; `BuildExport` proves that the manifests
  an export makes are ones the transfer is safe on.
- **Algorithms.** `CivilDate`, `PageDiff`, `BeatGrid`, `Anlz` with `AnlzWriter`,
  `AnlzReads` and `AnlzFields`, and `Tempo`.

`Bytes` and `Wrappers` hold byte-sequence and option helpers.

## Where the code and its descriptions disagree

- `validate_pdb` never accepts a file that `build` made: `next_unused_page` counts the
  phantom pages beyond the file. `ExportReads.ExportReport` proves it is the only error.
- `diff_page` says it merges runs separated by up to 3 equal bytes; its look-ahead covers
  gaps of 1 and 2 only. The model follows the code.
- A PCO2 section with cues declares 3 to 12 bytes more for each cue than it writes, so
  `.EXT` files with cues cannot be hopped through (`Anlz.ExtTilesExactlyWithoutCues`).
- The worker relies on its comment that artifact writes are idempotent and need no
  locking. They are safe while no worker acts after its lease; a late one can empty a
  file of a finished bundle (`Recovery.LateWorkerDoesDamage`).
- A batch can be reported complete while one of its hashes has not been looked at,
  because a hash that died and was analysed later counts twice
  (`Batches.CompleteCanBeEarly`); `Batches.CompleteIsReliableExactly` says when it cannot.
- A failed job whose key was enqueued again violates the unique index when it is claimed.
  If it is its kind's oldest, no claim that skips nothing succeeds until a report comes
  for that key or revives a settled job; a claim made while the row is locked skips it and
  gets through (`Blocking.StuckExactly`, `Blocking.StuckIsReachable`).
- `max_attempts` is looked at only when a failure is reported, so taking over a job from a
  silent worker can exceed it (`Attempts.CapExceededExactly`).

## Model

| member | source | states |
|---|---|---|
| DeviceString.EncodeString | crates/bvault-core/src/string.rs:23-39 | the bytes of a string in whichever of the three formats the source picks, for every string |
| DeviceString.FormatOf | crates/bvault-core/src/string.rs:23-86 | the first byte and the length tell which format a string got: empty, up to 126 ASCII characters, more of them, or UTF-16 |
| DeviceString.EncodeUtf16Le | crates/bvault-core/src/string.rs:68-86 | the loop writes exactly the UTF-16 units, low byte first, after the four-byte header |
| DeviceString.Utf16Decodes | crates/bvault-core/src/string.rs:68-86 | UTF-16LE text decodes to the original, surrogate pairs included (section 2.1 of RFC 2781) |
| DeviceString.EncodingDecodes | crates/bvault-core/src/string.rs:23-86 | an encoded string followed by any bytes decodes to itself and its exact length: strings are self-delimiting |
| DeviceString.TooLongDoesNotDecode | crates/bvault-core/src/string.rs:54-86 | a string whose encoding exceeds the 16-bit length field never decodes back, so the bound above is exact |
| Page.PageBuilder.constructor | crates/bvault-core/src/page.rs:245-256 | a zeroed page that satisfies the invariant and holds no rows |
| Page.PageBuilder.WriteRow | crates/bvault-core/src/page.rs:311-323 | fails exactly when the row does not fit and then changes nothing; otherwise appends the row and returns its offset |
| Page.PageBuilder.Finalize | crates/bvault-core/src/page.rs:326-334 | the finished 4096 bytes equal the page that the rows and header fields determine |
| Page.PageBuilder.WriteHeader | crates/bvault-core/src/page.rs:336-405 | changes only the first 40 bytes, to exactly the header |
| Page.PageBuilder.WriteRowIndex | crates/bvault-core/src/page.rs:407-463 | changes only the row-index region, to the groups of reversed offsets and presence flags |
| Page.WrittenSpace | crates/bvault-core/src/page.rs:272-323 | after any run of write_row the heap ends before the reserved row index and there are at most 1791 rows |
| Page.HeapRow | crates/bvault-core/src/page.rs:284-298 | every earlier row's bytes are still in the heap at its offset, and rows do not overlap |
| Page.OffsetsAligned | crates/bvault-core/src/page.rs:284-298 | all offsets are 4-aligned when rows have at least 3 bytes, although padding may be skipped: after that nothing fits |
| Layout.FitsExactly | crates/bvault-core/src/page.rs:272-323 | a page takes a row exactly when the row and the index of all rows have room, but for one spare group when the index would be full |
| PageReader.HeaderReads | crates/bvault-core/src/page.rs:336-405 | index, type, next page, sequence word, flags, packed counts and used size read back from a finished page |
| PageReader.HeaderSays | crates/bvault-core/src/page.rs:336-405 | page class by table, row count, and free and used size that add up with header and reserved index to 4096; the rest is zero |
| PageReader.RowReads | crates/bvault-core/src/page.rs:407-463 | slot i is marked present exactly for rows that exist, and its stored offset leads to the row's bytes |
| PageReader.GroupSays | crates/bvault-core/src/page.rs:407-463 | the presence flags are stored twice and slots without a row are zero |
| PageReader.PageReads | crates/bvault-core/src/page.rs:407-463 | a reader of one page recovers all its rows in order and nothing else |
| PageReader.PatchNext | crates/bvault-core/src/pdb.rs:338-345 | overwriting bytes 12-15 of a finished page gives the page with another next page and changes nothing else |
| PageReader.PatchSequence | crates/bvault-core/src/pdb.rs:396-403 | overwriting bytes 16-19 of a finished page gives the page with another sequence number and changes nothing else |
| Layout.PackKeeps | crates/bvault-core/src/pdb.rs:444-468 | greedy packing neither loses, duplicates nor reorders rows, and every page of it can be written |
| Layout.DataGroupsKeep | crates/bvault-core/src/pdb.rs:444-468 | the rows of a table's pages, in order, are the table's rows |
| Layout.PackNonEmpty | crates/bvault-core/src/pdb.rs:444-468 | no data page is left without rows |
| Layout.PackIsGreedy | crates/bvault-core/src/pdb.rs:444-468 | a page is closed only when the next row does not fit on it |
| Layout.GreedyPagesAreUnique | crates/bvault-core/src/pdb.rs:444-468 | a table's pages are the only ones that hold its rows in order and are closed for that reason alone |
| Layout.EveryPageHasATable | crates/bvault-core/src/pdb.rs:278-297 | every page from 1 to the page count lies in some table's run |
| Layout.OnlyOneTable | crates/bvault-core/src/pdb.rs:278-297 | and in only one: the runs partition the pages |
| Layout.ChainEndsDistinct | crates/bvault-core/src/pdb.rs:311-333 | phantom pages are pairwise distinct, at least the page count and below next_unused_page; empty tables' candidates are their own pages |
| Layout.DataTablesCount | crates/bvault-core/src/pdb.rs:311-333 | phantom pages and next_unused_page are counted by the tables that have rows |
| Layout.FilePagesAreAnImage | crates/bvault-core/src/pdb.rs:257-360 | the list of pages written out in order is an image of the tables |
| Layout.ImageIsUnique | crates/bvault-core/src/pdb.rs:257-360 | the image of the tables is unique: it leaves no byte of the file open |
| PdbWriter.IndexPageBuilder.Finalize | crates/bvault-core/src/page.rs:122-224 | an index page has exactly the bytes the layout gives, fill words included |
| PdbWriter.WriteHeaderPage | crates/bvault-core/src/page.rs:556-586 | page 0 holds the header fields and the 20 table pointers in order |
| PdbWriter.BuildDataPages | crates/bvault-core/src/pdb.rs:444-468 | fails exactly when some row exceeds 4020 bytes; otherwise the loop's pages hold the greedy groups and page numbers run on |
| PdbWriter.PatchSequences | crates/bvault-core/src/pdb.rs:394-403 | the second pass numbers the data pages consecutively and touches nothing else |
| PdbWriter.BuildTable | crates/bvault-core/src/pdb.rs:363-434 | index page, data pages (one zeroed page for an empty table), last page and next counters of one table |
| PdbWriter.BuildTables | crates/bvault-core/src/pdb.rs:278-297 | all 20 tables in order, each in place with its chain still unterminated |
| PdbWriter.AssignChainEnds | crates/bvault-core/src/pdb.rs:311-333 | table pointers, the pages to patch and next_unused_page, with one phantom page for each non-empty table |
| PdbWriter.PatchChainEnds | crates/bvault-core/src/pdb.rs:335-345 | after patching, each chain ends at its own phantom and all other bytes are as before |
| PdbWriter.ChainEndPatched | crates/bvault-core/src/pdb.rs:335-345 | patching the last page of a table is the same as having built the table with that chain end |
| PdbWriter.BuildFile | crates/bvault-core/src/pdb.rs:257-360 | the build over any 20 tables fails exactly when a row is too long and otherwise returns exactly the layout's pages |
| FileReader.HeaderPageReads | crates/bvault-core/src/page.rs:482-586 | every table pointer reads back: type, empty candidate, first and last page |
| FileReader.HeaderFieldsRead | crates/bvault-core/src/page.rs:556-586 | the header's counters read back |
| FileReader.HeaderPadding | crates/bvault-core/src/page.rs:556-586 | what the header page does not say is zero |
| FileReader.IndexPageSays | crates/bvault-core/src/page.rs:122-178 | every field of an index page, read at its own offset, with what differs for tracks and history and for empty tables |
| FileReader.IndexEntriesSay | crates/bvault-core/src/page.rs:178-224 | the 1004 entry words hold the fill word, but for one entry of tracks and history |
| FileReader.DataPageReads | crates/bvault-core/src/pdb.rs:363-434 | data page j of a table states its number, type, successor and sequence number and gives its rows |
| FileReader.TableChainIs | crates/bvault-core/src/pdb.rs:363-434 | following next_page from the pointer's first page visits the index page and then consecutive data pages, up to the last page |
| FileReader.FileReads | crates/bvault-core/src/pdb.rs:257-360 | whole-file round trip: a reader of pointer, chain and reversed row index recovers every table's rows byte for byte, in order, none lost or duplicated |
| PageGraph.PagesStateTheirNumber | crates/bvault-core/src/pdb.rs:363-434 | every page states its own number, except the zeroed page right after an empty table's index page |
| PageGraph.SequenceWithoutGaps | crates/bvault-core/src/pdb.rs:394-403 | data pages carry 2, 3, 4, ... in file order over all tables |
| PageGraph.ChainsEndBeyondTheFile | crates/bvault-core/src/pdb.rs:311-345 | each data chain ends at the page its pointer calls empty candidate: beyond the file, below next_unused_page, and no other table's |
| Validator.CountTableRows | crates/bvault-core/src/validate.rs:234-262 | the loop ends on every page-aligned buffer, cyclic chains included, and returns the walk's sum |
| Validator.CountIsTheWalks | crates/bvault-core/src/validate.rs:234-262 | on any file, well-formed or not, the count is the sum of the packed words' upper eleven bits over the pages of the walk, each once |
| Validator.ShiftedCount | crates/bvault-core/src/validate.rs:250-256 | the validator shifts where the row count is not, and still gets it, because four times the count sits above it |
| Validator.CountsEveryTable | crates/bvault-core/src/validate.rs:234-262 | on every built file the validator counts exactly the table's rows, also where its walk passes a zeroed page and page 0 |
| Validator.NextUnusedWithinFile | crates/bvault-core/src/validate.rs:136-141 | the validator's bound on next_unused_page holds exactly when no table has a row |
| ValidatePdb.Validate | crates/bvault-core/src/validate.rs:74-231 | errors, warnings and counts on every buffer: size checks first, then header, pointers and pages; accepted exactly when the file is sound |
| ValidatePdb.AcceptedExactly | crates/bvault-core/src/validate.rs:74-218 | a file of whole pages is accepted if and only if page size, next_unused_page and every table pointer, read from the bytes, are right |
| ValidatePdb.ErrorsExactly | crates/bvault-core/src/validate.rs:108-218 | each error of any file, and the pointer it blames, is reported if and only if the bytes call for it |
| ValidatePdb.CutFilesAreReported | crates/bvault-core/src/validate.rs:136-141 | a file cut off before the page its header promises next is never accepted |
| ValidatePdb.WarningsExactly | crates/bvault-core/src/validate.rs:220-231 | a page is warned of if and only if its stated number, its class or its used size is wrong |
| ValidatePdb.WalkPointers | crates/bvault-core/src/validate.rs:143-218 | the pointer loop, with its skips and its stop when a pointer leaves the header page |
| ValidatePdb.BuiltFileReport | crates/bvault-core/src/validate.rs:74-231 | the whole report on a built file: one error (next_unused_page), one warning for each empty table's zeroed page and no other, exact row counts |
| ExportReads.ExportReport | crates/bvault-core/src/validate.rs:136-141 | so the file of every library is reported invalid, for that reason alone, with the right numbers of tracks, artists, albums, genres, keys, playlists and entries |
| Tracks.KeyIdsInvert | crates/bvault-core/src/track.rs:118-163 | the key id determines pitch class and mode |
| Tracks.FifthsAreNeighbours | crates/bvault-core/src/track.rs:118-130 | a fifth up is the next key id, around the circle, for minor and major alike |
| Tracks.KeyNamesDiffer | crates/bvault-core/src/track.rs:166-178 | a minor key is its major's name with an m, and different keys have different names |
| Tracks.DecimalReads | crates/bvault-core/src/pdb.rs:1030-1036 | a printed year is read back from its digits and has no leading zero |
| RowCodec.BuildTrackRow | crates/bvault-core/src/pdb.rs:1003-1173 | the loops build the row that lays out the fixed fields, the 21 offsets and the 21 strings, and a reader of it finds the track's numbers and each text in its slot |
| RowCodec.StringReads | crates/bvault-core/src/pdb.rs:1050-1173 | each of the 21 stored offsets, truncated to 16 bits, points exactly at its string in any row that fits a page |
| RowCodec.TrackDecodes | crates/bvault-core/src/pdb.rs:1003-1173 | all fields and all strings of a track row that fits a page read back |
| RowCodec.TextsInSlots | crates/bvault-core/src/pdb.rs:1016-1048 | which of the 21 slots holds which text, slot by slot: release date, analysis path with one leading slash, comment, title, file name, file path; all others are empty |
| RowCodec.TrackRowSays | crates/bvault-core/src/pdb.rs:1003-1173 | the decoded row of a track has its own numbers in their fields and its own texts in their slots |
| RowCodec.TrackConstantsRead | crates/bvault-core/src/pdb.rs:1060-1160 | the fields that are the same for all tracks, at their offsets |
| RowCodec.NameFormats | crates/bvault-core/src/pdb.rs:1178-1270 | names of up to 200 encoded bytes take the near layout, longer ones the far one, with the layouts' marks and row lengths |
| RowCodec.ArtistDecodes | crates/bvault-core/src/pdb.rs:1178-1217 | both layouts of an artist row, near and far name, read back |
| RowCodec.AlbumDecodes | crates/bvault-core/src/pdb.rs:1223-1272 | both layouts of an album row read back, with the artist |
| RowCodec.NamedDecodes | crates/bvault-core/src/pdb.rs:1276-1281 | genre, label and artwork rows read back |
| RowCodec.KeyDecodes | crates/bvault-core/src/pdb.rs:1285-1291 | key rows read back, both copies of the id agreeing |
| RowCodec.PlaylistDecodes | crates/bvault-core/src/pdb.rs:1325-1349 | playlist tree rows read back |
| RowCodec.EntryDecodes | crates/bvault-core/src/pdb.rs:1352-1363 | playlist entry rows read back |
| Library.Intern.EnterKeeps | crates/bvault-core/src/pdb.rs:176-187 | interning keeps the map a bijection onto 1..next-1, keeps all earlier ids, and gives the key its id |
| Library.SortedKeys | crates/bvault-core/src/pdb.rs:591-602 | the keys of an intern map in id order |
| Library.WithTrackKeeps | crates/bvault-core/src/pdb.rs:95-150 | after add_track all intern maps are bijections, and every track's non-zero ids name that track's own values |
| Library.RunIsValid | crates/bvault-core/src/pdb.rs:90-174 | the same after any sequence of adds |
| Library.TrackFromAdd | crates/bvault-core/src/pdb.rs:95-150 | track i of the library is the i-th track added, field for field, and its artwork id names the artwork it was added with |
| Library.PlaylistFromAdd | crates/bvault-core/src/pdb.rs:153-174 | playlist i is the i-th playlist or folder added, field for field, with its place in the order |
| Library.EntryPlace | crates/bvault-core/src/pdb.rs:676-712 | track j of a playlist has its entry behind those of the playlists before it, numbered j + 1, and there are no others |
| Library.ColorRowReads | crates/bvault-core/src/pdb.rs:1302-1322 | colour rows read back |
| Library.ColumnRowReads | crates/bvault-core/src/pdb.rs:755-876 | column rows: number, subtype and the name between two markers, padded to four bytes |
| Library.QuadRowReads | crates/bvault-core/src/pdb.rs:879-966 | rows of the two unnamed tables read back as their four half words |
| Library.HistoryRowReads | crates/bvault-core/src/pdb.rs:968-1000 | the history row's date and number read back |
| Library.FixedTablesTakeOnePage | crates/bvault-core/src/pdb.rs:622-1000 | colour, column, history and the two unnamed fixed tables fit one page each |
| PdbBuilder.PdbBuilder.GetOrCreateArtist | crates/bvault-core/src/pdb.rs:176-187 | returns the name's id, fresh for a new name, 0 for the empty one; all other names keep theirs |
| PdbBuilder.PdbBuilder.GetOrCreateAlbum | crates/bvault-core/src/pdb.rs:189-201 | the same for pairs of album name and artist |
| PdbBuilder.PdbBuilder.GetOrCreateKey | crates/bvault-core/src/pdb.rs:229-237 | the same for key ids |
| PdbBuilder.PdbBuilder.AddTrackWithArtwork | crates/bvault-core/src/pdb.rs:95-150 | the builder's new state is the library with the track added, and the invariant is kept |
| PdbBuilder.PdbBuilder.AddPlaylist | crates/bvault-core/src/pdb.rs:153-162 | the new state is the library with the playlist appended |
| PdbBuilder.PdbBuilder.AddFolder | crates/bvault-core/src/pdb.rs:165-174 | the new state is the library with the folder appended |
| PdbBuilder.PdbBuilder.Build | crates/bvault-core/src/pdb.rs:257-360 | from the mutable builder: fails exactly when a row is too long, otherwise returns the layout's file for its tables |
| ExportReads.BuildFailsExactlyOnLongRows | crates/bvault-core/src/pdb.rs:257-360 | build fails if and only if a row made from added data exceeds 4020 bytes |
| ExportReads.EmptyLibraryExports | crates/bvault-core/src/pdb.rs:257-360 | with nothing added the build succeeds with 41 pages: the premises of the results about exported files can be met |
| ExportReads.TracksRead | crates/bvault-core/src/pdb.rs:1003-1173 | every track added reads back from the file, in order |
| ExportReads.AddedTrackReads | crates/bvault-core/src/pdb.rs:95-150 | in the file of any sequence of adds, row i of the track table has the numbers and the texts of the i-th add_track, each in its field and slot |
| ExportReads.AddedNamesResolve | crates/bvault-core/src/pdb.rs:95-150 | and its ids lead to the artist, album, genre, label and key it was added with |
| ExportReads.TrackNamesResolve | crates/bvault-core/src/pdb.rs:95-150 | a track's artist, genre and label ids lead to exactly one row of their table, carrying the track's own name; 0 stands for none |
| ExportReads.TrackAlbumResolves | crates/bvault-core/src/pdb.rs:189-201 | its album id leads to exactly one album row with its name and its artist |
| ExportReads.TrackArtworkResolves | crates/bvault-core/src/pdb.rs:239-250 | its artwork id leads to exactly one artwork row with the path the track was added with; 0 stands for none |
| ExportReads.TrackKeyResolves | crates/bvault-core/src/pdb.rs:591-619 | its key id leads to exactly one key row with its key's name |
| ExportReads.PlaylistsRead | crates/bvault-core/src/pdb.rs:649-673 | every playlist and folder reads back |
| ExportReads.EntriesRead | crates/bvault-core/src/pdb.rs:676-712 | every playlist's entries read back, numbered from 1 in order |
| ExportReads.AddedPlaylistReads | crates/bvault-core/src/pdb.rs:649-673 | row i of the playlist tree is the i-th playlist or folder added |
| ExportReads.AddedEntryReads | crates/bvault-core/src/pdb.rs:676-712 | track j of an added playlist is found at its place among the entries |
| ExportReads.FixedTablesRead | crates/bvault-core/src/pdb.rs:257-297 | every export has the tables with fixed rows, and the unused tables are empty |
| JobQueue.Queue.EnqueueJob | crates/bvault-jobs/src/queue.rs:98-132 | inserts a pending row unless an active one has the key; returns that row |
| JobQueue.Queue.ClaimJob | crates/bvault-jobs/src/queue.rs:137-164 | leases the oldest runnable row, or changes nothing: none runnable, or the unique index forbids it |
| JobQueue.Queue.HeartbeatJob | crates/bvault-jobs/src/queue.rs:168-181 | extends the lease of a running row only |
| JobQueue.Queue.CompleteJob | crates/bvault-jobs/src/queue.rs:185-198 | makes the row succeeded whatever it was |
| JobQueue.Queue.FailJob | crates/bvault-jobs/src/queue.rs:203-220 | makes the row dead when its attempts have reached the limit and failed otherwise, whatever it was, and changes no other |
| JobQueue.EnqueuedRow | crates/bvault-jobs/src/queue.rs:98-132 | a new job is pending, untried, and can be claimed at any time |
| JobQueue.ClaimedRowIs | crates/bvault-jobs/src/queue.rs:137-164 | a claimed job is running with one more attempt, and can be claimed again exactly after the lease has passed |
| JobQueue.HeartbeatRow | crates/bvault-jobs/src/queue.rs:168-181 | a heartbeat moves the end of a running job's lease and does nothing to others |
| JobQueue.FailureReport | crates/bvault-jobs/src/queue.rs:203-220 | after a failure report a job is dead if and only if its attempts were at least max_attempts; otherwise it is failed and can be claimed at once |
| JobQueue.FinalReport | crates/bvault-jobs/src/queue.rs:49-63 | a succeeded or parked job is never claimed again |
| JobQueue.Queue.MarkJobDead | crates/bvault-jobs/src/queue.rs:49-63 | makes the row dead whatever it was |
| JobQueue.Queue.CountDeadJobs | crates/bvault-jobs/src/queue.rs:237-249 | the number of dead rows with one of the keys |
| JobQueue.OpKeepsInv | services/gateway/migrations/0001_jobs.sql:31-33 | every operation keeps: at most one pending or running row for a kind and key, running exactly when a lease is set, failed only with attempts left |
| JobQueue.OpKeepsRows | crates/bvault-jobs/src/queue.rs:98-220 | no operation removes a row, changes its identity or lowers its attempts |
| JobQueue.RunsKeepInv | crates/bvault-jobs/src/queue.rs:98-220 | the row invariants hold after any sequence of operations |
| JobQueue.EnqueueIsIdempotent | crates/bvault-jobs/src/queue.rs:98-132 | enqueueing twice changes nothing and leaves exactly one active row for the key |
| Blocking.IndexRefusesExactly | crates/bvault-jobs/src/queue.rs:137-164 | the unique index refuses the update of a runnable row exactly when it is a failed row whose key is active again |
| Blocking.ClaimOutcomes | crates/bvault-jobs/src/queue.rs:137-164 | what a claim can do, from the rows alone: nothing to do exactly when no row is runnable, a violation exactly when some oldest unskipped row is blocked, row id exactly when it is such a row and is not blocked |
| Blocking.StuckLasts | crates/bvault-jobs/src/queue.rs:137-164 | while the oldest unsettled rows of a kind are all blocked, no sequence of later enqueues, claims that skip nothing, heartbeats and reports on other keys claims a row of the kind, and the table stays stuck |
| Blocking.StuckExactly | crates/bvault-jobs/src/queue.rs:137-164 | and only then: no such continuation claims a row of the kind if and only if its oldest unsettled rows are all failed rows whose keys are active again |
| Blocking.StuckIsReachable | services/gateway/migrations/0001_jobs.sql:31-33 | five operations lead to such a table, with a runnable job waiting behind; a claim that skips the locked first row still gets through |
| Attempts.AttemptsAreBounded | crates/bvault-jobs/src/queue.rs:137-220 | after any operations a row's attempts are at most max(1, max_attempts) plus the number of times it was taken over from a silent worker |
| Attempts.CapExceededExactly | crates/bvault-jobs/src/queue.rs:137-220 | attempts exceed max(1, max_attempts) if and only if at some point a running row with its attempts used up was claimed again |
| Attempts.DeadMeansExhausted | crates/bvault-jobs/src/queue.rs:203-220 | after any operations a dead job that was not parked from outside has at least max_attempts attempts |
| Attempts.TriedUntilTheLimit | crates/bvault-jobs/src/queue.rs:137-220 | a job that always fails is tried exactly max(1, max_attempts) times, stays in the queue until then, and is dead after that |
| ArtifactStore.ArtifactStore.PutBundle | crates/bvault-store/src/artifact.rs:53-73 | the files, then the marker; nothing when the marker exists |
| ArtifactStore.ArtifactStore.GetArtifact | crates/bvault-store/src/artifact.rs:76-79 | the file's content if it is there |
| ArtifactStore.PutCompletes | crates/bvault-store/src/artifact.rs:53-73 | a finished put leaves the given content complete, touches no other bundle, and is not repeated |
| LeaseProtocol.SingleWriter | services/analysis-worker/src/worker.rs:139-174 | two claims with open leases for one hash are the same worker: lease exclusivity together with the unique index |
| LeaseProtocol.NextKeepsInv | services/analysis-worker/src/worker.rs:74-174 | one step of the whole system (any worker's step, crash, failed write, lost report, clock, submit) keeps the invariant |
| LeaseProtocol.InvAlways | services/analysis-worker/src/worker.rs:36-174 | the invariant holds in every reachable state under lease discipline |
| LeaseProtocol.OneWriterPerHash | services/analysis-worker/src/worker.rs:139-174 | in every reachable state at most one worker with an open lease is in analyze or put for a hash |
| LeaseProtocol.MarkerMeansComplete | crates/bvault-store/src/artifact.rs:46-73 | in every reachable state a marker means every artifact holds its full bytes, and every succeeded analysis has such a bundle |
| LeaseProtocol.CompleteBundlesLast | crates/bvault-store/src/artifact.rs:53-73 | a complete bundle is never touched again, however the run goes on |
| LeaseProtocol.NextKeepsTerminal | crates/bvault-jobs/src/queue.rs:185-220 | one step changes no succeeded or dead analysis row and lowers no attempts |
| LeaseProtocol.TerminalRowsLast | crates/bvault-jobs/src/queue.rs:185-220 | succeeded and dead are absorbing over all runs, under lease discipline |
| LeaseProtocol.WithoutDiscipline | crates/bvault-jobs/src/queue.rs:98-220 | what needs no discipline: the row invariants, and that a succeeded analysis has a marker |
| Recovery.SoloReachesDone | services/analysis-worker/src/worker.rs:139-174 | run alone, the program does one whole put over whatever partial files are there, however its writes are cut up |
| Recovery.RedoCompletes | services/analysis-worker/src/worker.rs:139-174 | a redo that runs on alone after a crash completes the bundle and its row, from every state of the invariant, within a stated number of steps and with nothing else changed |
| Interleaving.RedoCompletesAmongOthers | services/analysis-worker/src/worker.rs:139-174 | the same amid any events of other workers, the gateway and the clock, in every reachable state, while the worker's lease stays open and it is not itself struck |
| Recovery.TerminalExactlyWithDiscipline | crates/bvault-jobs/src/queue.rs:185-220 | succeeded and dead analysis rows are final on all runs if and only if workers keep to their leases |
| Recovery.LateWorkerDoesDamage | services/analysis-worker/src/config.rs:17-19 | without discipline a late worker empties a file of a marked bundle whose row has succeeded, and can take the success back |
| Recovery.WholeExactlyWithDiscipline | services/analysis-worker/src/config.rs:17-19 | marked bundles are whole in every reachable state if and only if workers keep to their leases |
| Recovery.AttemptsAlongRuns | crates/bvault-jobs/src/queue.rs:137-220 | in every reachable state of the whole system the bound on attempts and the exact condition for exceeding max_attempts hold |
| Recovery.DeadAnalysesWereTried | crates/bvault-jobs/src/queue.rs:203-220 | in every reachable state of the whole system an analysis job is dead only after max_attempts attempts |
| Recovery.StoredButFailed | crates/bvault-store/src/artifact.rs:72-74 | a complete bundle does not mean a completed job: the marker may be there although the worker saw its creation fail and reported so |
| Recovery.StoredButUnreported | services/analysis-worker/src/worker.rs:121-130 | or the report may be lost, and the job stays running with its bundle complete |
| Recovery.StoredButSubmitted | services/gateway/src/routes.rs:537-556 | and a hash can be submitted again although its bundle is there, when a worker finishes between the gateway's look and its insert |
| Recovery.FinishedWorkIsNotRedone | services/analysis-worker/src/worker.rs:139-143 | a claim whose bundle is there is reported after two steps that touch no file |
| Recovery.OthersMayDoAnything | crates/bvault-jobs/src/queue.rs:60-240 | whatever other kinds' operations can do to the job table happens in some run of the protocol |
| Recovery.CrashesAreRetriedForever | crates/bvault-jobs/src/queue.rs:137-164 | the bound is not idle: for every number there is a run, disciplined or not, with that many attempts, since a job whose workers die is claimed each time its lease runs out |
| AnalysisWorker.Worker.Turn | services/analysis-worker/src/worker.rs:36-64 | one turn of the loop: the job taken has succeeded exactly when its bundle was there or could be made, which then is there with the analysis in it; otherwise it has failed and nothing was stored |
| AnalysisWorker.Worker.Process | services/analysis-worker/src/worker.rs:74-136 | complete exactly when the bundle is there or was analysed; fail otherwise and for an unreadable payload |
| AnalysisWorker.Worker.Analyze | services/analysis-worker/src/worker.rs:139-174 | nothing for an existing bundle, otherwise the analysis stored as analysis.json |
| AnalysisWorker.TurnIsARun | services/analysis-worker/src/worker.rs:36-174 | a turn that reports success, with a bundle there before or not, and an uninterrupted run of the protocol's steps leave the same table and the same bundles |
| AnalysisWorker.FailedTurnIsARun | services/analysis-worker/src/worker.rs:74-136 | a turn that reports a failure is a run too: claim, failure, report |
| Batches.Gateway.Analyze | services/gateway/src/routes.rs:520-563 | every hash without a bundle gets an active job, the others none, no row is lost, and the count returned is exact |
| Batches.Gateway.BatchProgress | services/gateway/src/routes.rs:575-612 | totals and the complete flag from the store and the job table |
| Batches.CompleteMeansSettled | services/gateway/src/routes.rs:575-612 | all hashes analysed or dead implies complete; complete implies it too when no hash of the batch counts twice |
| Batches.CompleteExactly | services/gateway/src/routes.rs:600-611 | for any batch of distinct hashes: complete if and only if the unsettled hashes are at most the surplus of the ones counted more than once; wrongly so exactly when some are unsettled and the surplus covers them |
| Batches.CompleteIsReliableExactly | services/gateway/src/routes.rs:600-611 | complete means all settled for every batch if and only if no hash at all counts twice |
| Batches.CountedTwice | crates/bvault-jobs/src/queue.rs:237-249 | a hash counts twice exactly when it is dead and analysed or has two dead rows |
| Batches.CompleteCanBeEarly | services/gateway/src/routes.rs:600-611 | a reachable state, for any attempts limit, where a batch is reported complete with a hash that is neither analysed nor dead |
| Batches.CompleteLasts | services/gateway/src/routes.rs:575-612 | once complete, always complete, under lease discipline |
| Batches.NothingIsForgotten | services/gateway/src/routes.rs:520-563 | a hash that has a job stays settled or awaited in every later state, with or without discipline |
| CivilDate.CivilIsTheCalendar | crates/bvault-export/src/build.rs:267-277 | for every day from 1970-01-01 on the formula gives the date reached one day at a time, which is a valid date |
| CivilDate.YearByParts | crates/bvault-export/src/build.rs:270-271 | the division formula for the year of an era is right for every century, four-year group, year and day |
| CivilDate.DateAndNumber | crates/bvault-export/src/build.rs:267-277 | an explicit inverse, in both directions |
| CivilDate.DatesAreDistinct | crates/bvault-export/src/build.rs:267-277 | no two days share a date |
| BuildExport.ExtensionIs | crates/bvault-export/src/build.rs:42-46 | the extension of a name with a dot after its first character is what follows the last one |
| BuildExport.NoExtension | crates/bvault-export/src/build.rs:42-46 | a name without a dot after its first character gets bin |
| BuildExport.BuildManifest | crates/bvault-export/src/build.rs:83-153 | the files made for the export come from staging, then each track's raw file under its own hash, every entry with its own file's size |
| BuildExport.BackupPathSays | crates/bvault-core/src/device_library.rs:457-459 | the backup file is named after the database number, in decimal |
| BuildExport.OneEntryPerTrack | crates/bvault-export/src/build.rs:136-146 | exactly one entry has a track's hash as its source |
| BuildExport.ContentsPathsDiffer | crates/bvault-export/src/build.rs:46-46 | audio paths of different hashes differ, whatever the extensions |
| BuildExport.HashedTracksAreProper | crates/bvault-export/src/build.rs:42-46 | the printed forms of different 64-bit hashes meet what the manifest results ask of track hashes |
| BuildExport.AnlzPathsDiffer | crates/bvault-core/src/anlz.rs:656-661 | the analysis path determines the 32-bit track id, although its directory number wraps at 1000 |
| BuildExport.AnlzPathSays | crates/bvault-core/src/anlz.rs:656-661 | directory number and track id are read back from the digits of the analysis path |
| BuildExport.ManifestIsProper | crates/bvault-export/src/build.rs:23-156 | every manifest has distinct paths, none of them another path with the temporary suffix |
| BuildExport.ExportTransfersSafely | crates/bvault-transfer/src/reconcile.rs:66-146 | so transferring an export never replaces an old file by a half-written one |
| BuildExport.AudioArrives | crates/bvault-transfer/src/reconcile.rs:133-146 | after a complete transfer of an export, a track whose audio was reported done has at its place a file with its own hash |
| BuildExport.AudioIsTheOriginal | crates/bvault-hash/src/lib.rs:31-37 | and that file is as long as the original the hash was made from and begins with the same first MiB, unless the digest collides on the two |
| PageDiff.ExtendRun | crates/bvault-core/src/diff.rs:183-213 | from a differing byte, the inner loops end at the last byte connected by gaps of at most two |
| PageDiff.DiffPage | crates/bvault-core/src/diff.rs:176-223 | ranges ascend at least three equal bytes apart, start and end on a difference, hold no three equal bytes in a row, and cover every difference |
| PageDiff.SameRange | crates/bvault-core/src/diff.rs:176-223 | two differences are in one range exactly when no three equal bytes in a row lie between |
| PageDiff.DiffIsUnique | crates/bvault-core/src/diff.rs:176-223 | these properties determine the ranges |
| PageDiff.DiffPdb | crates/bvault-core/src/diff.rs:139-172 | exactly the differing common pages are listed, in order, each with its diff, and the surplus pages of either file |
| PageDiff.IdenticalMeansSamePages | crates/bvault-core/src/diff.rs:52-54 | identical is reported exactly when the whole pages are the same; trailing bytes are not looked at |
| ContentHash.ContentHasher.Update | crates/bvault-hash/src/lib.rs:75-81 | the hasher has seen the old bytes and then these |
| ContentHash.ContentHasher.Finalize | crates/bvault-hash/src/lib.rs:94-97 | the hash of everything seen, as the one-shot function gives it |
| ContentHash.HashStream | crates/bvault-hash/src/lib.rs:31-37 | streaming equals one-shot hashing for every way of cutting the content |
| ContentHash.HashesHeadAndLength | crates/bvault-hash/src/lib.rs:31-37 | whatever the digest, it is given the first MiB, or all there is, and eight bytes that read back as the length, lowest first |
| ContentHash.HashedBytesDetermineSample | crates/bvault-hash/src/lib.rs:31-37 | bytes that identify two contents give them the same length and the same first MiB |
| ContentHash.SameIdentityExactly | crates/bvault-hash/src/lib.rs:31-37 | two contents have the same identity if and only if they agree in length and first MiB, unless the digest collides on what it is given |
| ContentHash.OnlyHeadAndLengthMatter | crates/bvault-hash/src/lib.rs:20-37 | content of one length that differs only after the first MiB has the same identity, for every digest |
| ContentHash.HashHexParses | crates/bvault-hash/src/lib.rs:42-44 | 16 digits, and they parse back to the hash |
| SafSink.ChildSegments | crates/bvault-transfer/src/sink.rs:232-241 | appending a segment to a cached path appends it to its segments |
| SafSink.TidyPath | crates/bvault-transfer/src/sink.rs:231-243 | the cache's key for a path without stray slashes is the path itself, so the next call for it finds it |
| SafSink.WalkAfterMkdir | crates/bvault-transfer/src/sink.rs:483-503 | making a directory leaves every walk that worked as it was |
| SafSink.SafSink.Resolve | crates/bvault-transfer/src/sink.rs:252-268 | an existing child is used and a missing one made once; it fails exactly when the parent is no directory or cannot be listed, or a missing child cannot be made |
| SafSink.SafSink.EnsureDirUri | crates/bvault-transfer/src/sink.rs:224-272 | the cache agrees with walking the tree after every call, failed ones too; nothing is lost or duplicated, only the path is made, and a repeat changes nothing; there is a result, and it is the walk's, if and only if every segment is cached, found or can be made |
| Reconcile.FsWriter.constructor | crates/bvault-transfer/src/sink.rs:159-174 | opens an empty temporary file and touches nothing else |
| Reconcile.FsWriter.WriteAll | crates/bvault-transfer/src/sink.rs:182-184 | file and buffer together hold everything written |
| Reconcile.FsWriter.Commit | crates/bvault-transfer/src/sink.rs:186-193 | the destination becomes everything written, or keeps its content when flush, sync or rename fails |
| Reconcile.FsWriter.Abort | crates/bvault-transfer/src/sink.rs:195-198 | removes the temporary file and touches nothing else |
| Reconcile.Stream | crates/bvault-transfer/src/reconcile.rs:109-131 | the chunk loop succeeds exactly when every chunk arrives and is written, and then hasher and file have seen the same bytes |
| Reconcile.VerdictExactly | crates/bvault-transfer/src/reconcile.rs:66-146 | the condition of each verdict, spelled out: done exactly when the entry was not there in its size and everything up to the rename went well, the hash included |
| Reconcile.ReconcileEntry | crates/bvault-transfer/src/reconcile.rs:66-145 | one verdict for each entry, its effect on the files, and every state the files pass through |
| Reconcile.Reconcile | crates/bvault-transfer/src/reconcile.rs:66-155 | the run: one verdict for each entry, or an early error; every state on the way is one its entry may cause |
| Reconcile.RunKeepsDestinations | crates/bvault-transfer/src/reconcile.rs:66-146 | at every entry boundary a destination holds its streamed content if done and its old content otherwise |
| Reconcile.RunIsSafe | crates/bvault-transfer/src/sink.rs:159-198 | at every moment of every run each destination holds its old content or the complete streamed content |
| Reconcile.ClashLosesAFile | crates/bvault-transfer/src/sink.rs:161-164 | a manifest with one path equal to another plus the temporary suffix can lose that file |
| Reconcile.SafeExactlyWithoutClash | crates/bvault-transfer/src/sink.rs:159-198 | a manifest is safe in all circumstances if and only if it has no such pair |
| Reconcile.RawFilesAreVerified | crates/bvault-transfer/src/reconcile.rs:133-146 | after a complete run every raw file reported done lies at its destination with the hash the manifest gives |
| Reconcile.RawFilesAreComplete | crates/bvault-transfer/src/reconcile.rs:133-146 | such a file has the length and the first MiB of the file its hash was made from, unless the digest collides |
| Reconcile.SecondRunSkips | crates/bvault-transfer/src/reconcile.rs:74-79 | a run over destinations that all have the manifest's sizes changes nothing and skips every entry it reaches |
| BeatGrid.ConstantTempo | crates/bvault-core/src/track.rs:203-227 | exactly the beats that start before the end, from the first beat on one every 60000 / bpm, counted in fours, with the tempo to the nearest hundredth, over the reals |
| BeatGrid.BeatCountIsUnique | crates/bvault-core/src/track.rs:203-227 | that determines how many beats there are |
| Anlz.FramedSectionsTile | crates/bvault-core/src/anlz.rs:64-74 | sections that declare their length are what hopping from byte 28 visits, up to the declared file length |
| Anlz.DatTiles | crates/bvault-core/src/anlz.rs:77-120 | hopping through a .DAT visits exactly its seven tags in order and ends at len_file, for every grid, waveform and path |
| Anlz.TwoExTiles | crates/bvault-core/src/anlz.rs:720-746 | the same for .2EX |
| Anlz.Pco2LiesAboutItsLength | crates/bvault-core/src/anlz.rs:485-517 | a non-empty PCO2 section never declares its real length, not even after truncation to 32 bits |
| Anlz.ExtTilesExactlyWithoutCues | crates/bvault-core/src/anlz.rs:668-716 | hopping through an .EXT works if and only if the track has no cues |
| AnlzWriter.GeneratePpth | crates/bvault-core/src/anlz.rs:263-290 | exactly the path section |
| AnlzWriter.GeneratePvbr | crates/bvault-core/src/anlz.rs:39-57 | exactly the seek index section |
| AnlzWriter.GeneratePqtz | crates/bvault-core/src/anlz.rs:155-190 | exactly the beat grid section |
| AnlzWriter.GeneratePwav | crates/bvault-core/src/anlz.rs:193-224 | exactly the preview section, padded to 400 columns |
| AnlzWriter.GeneratePwv2 | crates/bvault-core/src/anlz.rs:127-152 | the nested loops give the peak of every four columns |
| AnlzWriter.GeneratePwv3 | crates/bvault-core/src/anlz.rs:296-319 | exactly the grey detail section |
| AnlzWriter.GeneratePwv4 | crates/bvault-core/src/anlz.rs:419-454 | exactly the colour preview section, padded to 1200 columns |
| AnlzWriter.GeneratePwv5 | crates/bvault-core/src/anlz.rs:227-258 | exactly the colour detail section |
| AnlzWriter.GeneratePwv6 | crates/bvault-core/src/anlz.rs:323-345 | exactly the 3-band preview section |
| AnlzWriter.GeneratePwv7 | crates/bvault-core/src/anlz.rs:349-372 | exactly the 3-band detail section |
| AnlzWriter.GeneratePco2 | crates/bvault-core/src/anlz.rs:458-482 | the hot and memory cue sections, each only if it has cues |
| AnlzWriter.GeneratePcob | crates/bvault-core/src/anlz.rs:590-652 | exactly the basic cue section |
| AnlzWriter.GenerateDatFile | crates/bvault-core/src/anlz.rs:77-120 | the .DAT file is header and seven sections with the right total |
| AnlzWriter.GenerateExtFile | crates/bvault-core/src/anlz.rs:668-716 | the .EXT file, with and without cues |
| AnlzWriter.Generate2exFile | crates/bvault-core/src/anlz.rs:720-746 | the .2EX file |
| AnlzReads.PqtzReads | crates/bvault-core/src/anlz.rs:155-190 | beat count, and each beat's number, tempo and time read back |
| AnlzReads.PpthReads | crates/bvault-core/src/anlz.rs:263-290 | the declared byte length covers the path's UTF-16 units and their terminator, which read back |
| AnlzReads.PvbrReads | crates/bvault-core/src/anlz.rs:39-57 | each of the 400 seek offsets and the sample count read back |
| AnlzReads.SeekOffsetsAscend | crates/bvault-core/src/anlz.rs:45-50 | the offsets read from the section never go back for files below 4 GiB; below 1 TiB, exactly while the last offset fits 32 bits |
| AnlzReads.PreviewsRead | crates/bvault-core/src/anlz.rs:127-224 | every preview and overview column reads back, the overview as the peak of its four columns |
| AnlzReads.GreyDetailReads | crates/bvault-core/src/anlz.rs:296-319 | every grey detail entry reads back |
| AnlzReads.ColorDetailReads | crates/bvault-core/src/anlz.rs:227-258 | every colour detail entry reads back as one 16-bit value |
| AnlzReads.BandDetailReads | crates/bvault-core/src/anlz.rs:349-372 | every 3-band detail entry reads back |
| AnlzReads.ColorPreviewsRead | crates/bvault-core/src/anlz.rs:323-454 | every column of both colour previews reads back |
| AnlzReads.PcobReads | crates/bvault-core/src/anlz.rs:590-652 | every basic cue reads back: slot, kind, time and loop end |
| AnlzFields.TimeIs | crates/bvault-core/src/anlz.rs:186-186 | times are stored in whole milliseconds, clamped to 32 bits |
| AnlzFields.PqtzSays | crates/bvault-core/src/anlz.rs:155-190 | the head of the beat grid section |
| AnlzFields.PreviewHeads | crates/bvault-core/src/anlz.rs:127-454 | the heads of the four preview sections |
| AnlzFields.DetailHeads | crates/bvault-core/src/anlz.rs:227-372 | the heads of the three detail sections |
| AnlzFields.PreviewColumnSays | crates/bvault-core/src/anlz.rs:193-224 | preview columns keep five bits of height and three of whiteness; missing ones are zero |
| AnlzFields.OverviewSays | crates/bvault-core/src/anlz.rs:127-152 | overview columns are the largest of their four columns' bytes |
| AnlzFields.ColorColumnSays | crates/bvault-core/src/anlz.rs:323-454 | each value of a colour preview column at its byte |
| AnlzFields.GreyIs | crates/bvault-core/src/anlz.rs:296-319 | the grey entry keeps the height and the mean of the bands, capped at 7 |
| AnlzFields.ScaledIs | crates/bvault-core/src/anlz.rs:349-372 | a band times a height is spread from 0..217 over 0..127, rounded down |
| AnlzFields.KeptInOrder | crates/bvault-core/src/anlz.rs:464-467 | hot and memory cues are separated in their order, none lost |
| AnlzFields.ExtendedCueSays | crates/bvault-core/src/anlz.rs:505-585 | every field of an extended cue, its comment and its colour, at its byte |
| AnlzFields.Pco2Reads | crates/bvault-core/src/anlz.rs:485-585 | every extended cue is found behind the true lengths of those before it, although the declared ones lead elsewhere |
| AnlzFields.Pco2Declares | crates/bvault-core/src/anlz.rs:485-517 | the length an extended section declares misses its true one by 4 or 12 bytes for each cue, less one for each comment |
| AnlzFields.BasicCueBegins | crates/bvault-core/src/anlz.rs:614-619 | a basic cue begins with its mark and the length of the rest |
| AnlzFields.PwvcSays | crates/bvault-core/src/anlz.rs:378-390 | the three band gains are 100 |
| AnlzFields.SeekOffsetIs | crates/bvault-core/src/anlz.rs:39-57 | seek offset i points i 400ths into the file, while the product fits 64 bits |
| AnlzFields.LateSeekOffsetIs | crates/bvault-core/src/anlz.rs:39-57 | above that the product saturates and all offsets are the same |
| AnlzFields.FileHead | crates/bvault-core/src/anlz.rs:64-74 | the fields of the file header |
| AnlzFields.DatSays | crates/bvault-core/src/anlz.rs:77-120 | in a .DAT file the seek index, the beat count and the two empty cue lists are the right ones |
| AnlzFields.ExtSays | crates/bvault-core/src/anlz.rs:668-716 | which cue lists an .EXT file with cues has, of which kind, and how long |
| AnlzReads.PeakIsMax | crates/bvault-core/src/anlz.rs:135-150 | the overview's value is the largest of its group |
| AnlzReads.WaveformBytesRead | crates/bvault-core/src/track.rs:438-490 | packed waveform fields read back up to their width |
| Tempo.Normalise | crates/bvault-analysis/src/tempo.rs:54-60 | the envelope divided by its maximum, in place |
| Tempo.NormalisedPeak | crates/bvault-analysis/src/tempo.rs:54-60 | afterwards the largest value is 1 if any was positive |
| Tempo.NormalisedIs | crates/bvault-analysis/src/tempo.rs:54-60 | every value is divided by the largest one, and an envelope without a positive one stays |
| Tempo.Search | crates/bvault-analysis/src/tempo.rs:62-83 | the first lag with the largest positive correlation, or the smallest lag when none is positive |
| Tempo.VertexIsNear | crates/bvault-analysis/src/tempo.rs:85-97 | the parabolic refinement at a peak moves by at most half a lag |
| Tempo.VertexIsExtremum | crates/bvault-analysis/src/tempo.rs:85-97 | and it is where the parabola through the three values has its maximum |
| Tempo.RefinedIsNear | crates/bvault-analysis/src/tempo.rs:85-97 | the refined lag is within half a lag of the first best lag |
| Tempo.Fold | crates/bvault-analysis/src/tempo.rs:99-105 | the folding loops end for every positive estimate and range |
| Tempo.RaisedByOctaves | crates/bvault-analysis/src/tempo.rs:100-102 | doubling changes only the octave |
| Tempo.LoweredByOctaves | crates/bvault-analysis/src/tempo.rs:103-105 | halving changes only the octave |
| Tempo.FoldLandsInRange | crates/bvault-analysis/src/tempo.rs:99-105 | every estimate lands in the range if and only if the range spans an octave |
| Tempo.LagsCoverTempi | crates/bvault-analysis/src/tempo.rs:62-66 | the lags searched are those of tempi from 60 to 200, all of them and up to rounding no others |
| Tempo.ClickTempo | crates/bvault-analysis/src/tempo.rs:54-108 | a steady click of any loudness, for whole periods, is detected at exactly its tempo, when that is between 60 and 200 and in the caller's range |
| Tempo.DetectBpm | crates/bvault-analysis/src/tempo.rs:54-108 | envelope to tempo: the folded tempo of the refined first best lag; 120 for an empty envelope |

## Left out

- FileReader.FileReads: page, row and id counters are unbounded here; the source counts in u32, so the result is stated for files whose next_unused_page fits 32 bits.
- ExportReads.TracksRead: numbers of tracks, playlists and entries are taken to fit 32 bits, as the source's counters do.
- PdbBuilder.PdbBuilder.Build: rows are made for all tables before pages are laid out, where the source makes each table's rows as it paginates; float fields of a track (tempo, duration) are given as the integers that are stored; collecting a hash map and sorting it by id is modelled as listing the keys by id.
- Tracks.KeyIdsInvert: pitch classes are 0 to 11, as `Key::new` leaves them.
- PageBuilder's `add_row` and `write_heap` are modelled only inside `write_row`, which is the one use that checks space; the row-offset count passed to the index page builder is not used by the source and not modelled.
- LeaseProtocol.InvAlways: under lease discipline only; without it `LeaseProtocol.WithoutDiscipline` states what remains and `Recovery.WholeExactlyWithDiscipline` that the rest does not. Analysis is taken to be deterministic, and other services' operations act on rows of the other kind.
- JobQueue.Queue.ClaimJob: one SQL statement is one atomic step; rows locked by other transactions are an arbitrary set that is skipped; row ids are positions; priorities, payloads, traces and error texts are not modelled.
- LeaseProtocol.MarkerMeansComplete: process crashes only; loss of unsynced directory entries on power failure is not modelled.
- AnalysisWorker.Worker.Turn: the loop around it, its sleeping and its retry after a database error, and input or output errors of the store in a sequential turn (they are steps of `LeaseProtocol`).
- SafSink.SafSink.EnsureDirUri: display names are not sanitised by the provider, directories are only made by this client while it runs, and the SAF file writer, which writes in place and so has no old-or-whole guarantee, is not modelled.
- Reconcile.Reconcile: the filesystem backend; requests, progress byte counts, directory creation and the final cleanup request are conditions or left out. A file is skipped for its size alone, as in the source, so nothing is said about its content.
- ContentHash.HashStream: xxh3 is an arbitrary function of bytes; what needs different contents to have different identities (`ContentHash.SameIdentityExactly`, `Reconcile.RawFilesAreComplete`) is stated for two contents on which it does not collide.
- BuildExport.BuildManifest: file sizes are given; playlist sorting, the device identity seed, the device library database and the settings files are not modelled; a raw location is taken not to end in a slash.
- CivilDate.CivilIsTheCalendar: the clock is a day count and the date's text form is not modelled.
- BeatGrid.ConstantTempo: over the reals and for a positive tempo; with a negative one the source's loop does not end.
- Tempo.DetectBpm: over the reals, from the envelope on; framing and root mean squares, and frame rates so low that the smallest lag is 0 (where the source divides by zero), are left out.
- PageDiff.DiffPdb: the display copies, field names and the printed report.
- Anlz.ExtTilesExactlyWithoutCues: cue colours are given as their four bytes and cue types as their numbers.
- HTTP, authentication, telemetry, configuration, the CLI, audio decoding, the SQLCipher database, settings files, XML export and colour tables.
