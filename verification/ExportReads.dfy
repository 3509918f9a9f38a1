// From add_ calls to bytes and back: what a reader finds in the file that build returns
// after any sequence of adds.
module ExportReads {
  import opened Wrappers
  import opened Bytes
  import opened Page
  import opened Layout
  import opened FileReader
  import opened DeviceString
  import opened Tracks
  import opened RowCodec
  import opened Library
  import ValidatePdb

  const GENRES: nat := 1
  const ARTISTS: nat := 2
  const ALBUMS: nat := 3
  const LABELS: nat := 4
  const KEYS: nat := 5
  const PLAYLIST_TREE: nat := 7
  const PLAYLIST_ENTRIES: nat := 8
  const ARTWORK: nat := 13

  // The source's u32 counters (page and row numbers, ids, positions) do not overflow.
  ghost predicate CountersFit(lib: Library)
    requires InternsValid(lib)
  {
    && FitsCounters(TablesOf(lib))
    && |lib.tracks| + 1 < U32_LIMIT && |lib.playlists| < U32_LIMIT
    && forall p :: 0 <= p < |lib.playlists| ==> |lib.playlists[p].trackIds| < U32_LIMIT
  }

  // build succeeded on this builder state and returned this file.
  ghost predicate Exported(lib: Library, file: bytes) {
    && ValidLibrary(lib) && CountersFit(lib)
    && AllTablesFit(TablesOf(lib))
    && file == Concat(FilePages(TablesOf(lib), |lib.tracks|))
  }

  function Tail(file: bytes, t: nat, i: nat): bytes
    requires PageTotal(file) >= 1 && t < TABLE_COUNT && i < |ReadTable(file, t)|
  {
    ReadTable(file, t)[i]
  }

  lemma TableRecovered(lib: Library, file: bytes, t: nat)
    requires Exported(lib, file) && t < TABLE_COUNT
    ensures PageTotal(file) >= 1
    ensures Recovers(ReadTable(file, t), TablesOf(lib)[t]) && AllFit(TablesOf(lib)[t])
  {
    hide InternsValid, TrackRefers, TablesOf, FilePages, ReadTable, PageTotal, Recovers, Concat, FitsCounters;
    var tables := TablesOf(lib);
    FilePagesAreAnImage(tables, |lib.tracks|);
    FileReads(FilePages(tables, |lib.tracks|), tables, |lib.tracks|, t);
  }

  lemma TableNumbers(lib: Library)
    requires InternsValid(lib)
    ensures TablesOf(lib)[TRACKS] == TrackRows(lib.tracks)
    ensures TablesOf(lib)[GENRES] == NamedRows(lib.genres.Order())
    ensures TablesOf(lib)[ARTISTS] == ArtistRows(lib.artists.Order())
    ensures TablesOf(lib)[ALBUMS] == AlbumRows(lib.albums.Order())
    ensures TablesOf(lib)[LABELS] == NamedRows(lib.labels.Order())
    ensures TablesOf(lib)[KEYS] == KeyRows(KeyNames(lib.keys.Order()))
    ensures TablesOf(lib)[PLAYLIST_TREE] == PlaylistRows(lib.playlists)
    ensures TablesOf(lib)[PLAYLIST_ENTRIES] == EntryRows(Entries(lib.playlists))
    ensures TablesOf(lib)[ARTWORK] == NamedRows(lib.artworks.Order())
  {
    hide Intern.Order, Intern.Valid, InternsValid;
    hide TrackRows, NamedRows, ArtistRows, AlbumRows, KeyRows, KeyNames, ColorRows, PlaylistRows, EntryRows,
         Entries, ColumnRows, QuadRows, HistoryRows;
  }

  // A row read back: what was read starts with the row, which fits a page.
  lemma RowRead(tails: seq<bytes>, rows: seq<Row>, i: nat)
    requires Recovers(tails, rows) && AllFit(rows) && i < |rows|
    ensures |tails| == |rows| && |rows[i]| <= MAX_ROW && tails[i] == rows[i] + tails[i][|rows[i]|..]
  {
    assert rows[i] <= tails[i];
  }

  // ---- Tables of names ------------------------------------------------------------------

  // Row i of the table decodes to id i + 1 and the i-th name.
  ghost predicate ReadsNames(tails: seq<bytes>, decode: bytes -> Option<(nat, string)>, names: seq<string>) {
    |tails| == |names| && forall i :: 0 <= i < |names| ==> decode(tails[i]) == Some((i + 1, names[i]))
  }

  lemma NamedTableReads(tails: seq<bytes>, names: seq<string>)
    requires Recovers(tails, NamedRows(names)) && AllFit(NamedRows(names)) && |names| < U32_LIMIT
    ensures ReadsNames(tails, DecodeNamed, names)
  {
    hide NamedRow, DecodeNamed, Recovers, AllFit;
    forall i | 0 <= i < |names|
      ensures |tails| == |names| && DecodeNamed(tails[i]) == Some((i + 1, names[i]))
    {
      RowRead(tails, NamedRows(names), i);
      NamedRowLength(i + 1, names[i]);
      NamedDecodes(i + 1, names[i], tails[i][|NamedRow(i + 1, names[i])|..]);
    }
    RecoveredLength(tails, NamedRows(names));
  }

  lemma RecoveredLength(tails: seq<bytes>, rows: seq<Row>)
    requires Recovers(tails, rows)
    ensures |tails| == |rows|
  {}

  lemma NamedRowLength(id: nat, name: string)
    ensures EncodedLength(name) <= |NamedRow(id, name)|
  {
    hide EncodedLength, LE32;
  }

  lemma ArtistTableReads(tails: seq<bytes>, names: seq<string>)
    requires Recovers(tails, ArtistRows(names)) && AllFit(ArtistRows(names)) && |names| < U32_LIMIT
    ensures ReadsNames(tails, DecodeArtist, names)
  {
    hide ArtistRow, DecodeArtist, Recovers, AllFit;
    forall i | 0 <= i < |names|
      ensures |tails| == |names| && DecodeArtist(tails[i]) == Some((i + 1, names[i]))
    {
      RowRead(tails, ArtistRows(names), i);
      ArtistRowLength(i + 1, names[i]);
      ArtistDecodes(i + 1, names[i], tails[i][|ArtistRow(i + 1, names[i])|..]);
    }
    RecoveredLength(tails, ArtistRows(names));
  }

  lemma ArtistRowLength(id: nat, name: string)
    ensures EncodedLength(name) <= |ArtistRow(id, name)|
  {
    hide EncodedLength, ArtistHead;
  }

  lemma KeyTableReads(tails: seq<bytes>, names: seq<string>)
    requires Recovers(tails, KeyRows(names)) && AllFit(KeyRows(names)) && |names| < U32_LIMIT
    ensures ReadsNames(tails, DecodeKey, names)
  {
    hide KeyRow, DecodeKey, Recovers, AllFit;
    forall i | 0 <= i < |names|
      ensures |tails| == |names| && DecodeKey(tails[i]) == Some((i + 1, names[i]))
    {
      RowRead(tails, KeyRows(names), i);
      KeyRowLength(i + 1, names[i]);
      KeyDecodes(i + 1, names[i], tails[i][|KeyRow(i + 1, names[i])|..]);
    }
    RecoveredLength(tails, KeyRows(names));
  }

  lemma KeyRowLength(id: nat, name: string)
    ensures EncodedLength(name) <= |KeyRow(id, name)|
  {
    hide NamedRow, LE32;
    NamedRowLength(id, name);
  }

  // The id is the id of one row, and that row carries the name.
  ghost predicate NamesOneRow(tails: seq<bytes>, decode: bytes -> Option<(nat, string)>, id: nat, name: string) {
    exists i :: 0 <= i < |tails| && decode(tails[i]) == Some((id, name)) && OnlyRow(tails, decode, i, id)
  }

  ghost predicate OnlyRow(tails: seq<bytes>, decode: bytes -> Option<(nat, string)>, i: nat, id: nat) {
    forall j :: 0 <= j < |tails| && decode(tails[j]).Some? && decode(tails[j]).value.0 == id ==> j == i
  }

  // A stored reference resolves: 0 when there is no name, otherwise exactly one row.
  ghost predicate Resolves(tails: seq<bytes>, decode: bytes -> Option<(nat, string)>, id: nat, name: Option<string>) {
    match name
    case None => id == 0
    case Some(n) => id != 0 && NamesOneRow(tails, decode, id, n)
  }

  lemma ReferenceResolves(tails: seq<bytes>, decode: bytes -> Option<(nat, string)>, m: Intern<string>, id: nat,
                          name: Option<string>)
    requires m.Valid() && ReadsNames(tails, decode, m.Order()) && RefersTo(m, id, name)
    ensures Resolves(tails, decode, id, name)
  {
    if name.Some? {
      var names := m.Order();
      assert m.ids[names[id - 1]] == id && names[id - 1] == name.value;
      assert decode(tails[id - 1]) == Some((id, name.value));
      assert OnlyRow(tails, decode, id - 1, id);
    }
  }

  // ---- Tracks ------------------------------------------------------------------------------

  lemma IdsAreU32<K>(m: Intern<K>, id: nat, key: Option<K>, bound: nat)
    requires m.Valid() && m.next <= bound && RefersTo(m, id, key)
    ensures id < bound || id == 0
  {}

  lemma TrackIdsFit(lib: Library, i: nat)
    requires ValidLibrary(lib) && |lib.tracks| + 1 < U32_LIMIT && i < |lib.tracks|
    ensures IdsFit(lib.tracks[i])
  {
    hide RefersTo, NonEmpty, KeysProper;
    var t := lib.tracks[i];
    assert TrackRefers(lib, t);
    IdsAreU32(lib.artists, t.artistId, NonEmpty(Some(t.analysis.artist)), U32_LIMIT);
    IdsAreU32(lib.albums, t.albumId, AlbumOf(t), U32_LIMIT);
    IdsAreU32(lib.genres, t.genreId, NonEmpty(t.analysis.genre), U32_LIMIT);
    IdsAreU32(lib.labels, t.labelId, NonEmpty(t.analysis.recordLabel), U32_LIMIT);
    IdsAreU32(lib.keys, t.keyId, KeyIdOf(t.analysis), U32_LIMIT);
  }

  // Every track row decodes, in the order tracks were added, to the track's own fields,
  // ids and 21 strings.
  lemma TracksRead(lib: Library, file: bytes, i: nat)
    requires Exported(lib, file) && i < |lib.tracks|
    ensures PageTotal(file) >= 1 && |ReadTable(file, TRACKS)| == |lib.tracks|
    ensures DecodeTrack(Tail(file, TRACKS, i)) == Some(RecordOf(lib.tracks[i]))
  {
    hide InternsValid, KeysProper, TrackRefers, TrackRow, DecodeTrack, ReadTable, PageTotal, RecordOf,
         Recovers, AllFit, FitsCounters, FilePages, TablesOf;
    TableRecovered(lib, file, TRACKS);
    TableNumbers(lib);
    RowRead(ReadTable(file, TRACKS), TrackRows(lib.tracks), i);
    var t, tail := lib.tracks[i], Tail(file, TRACKS, i);
    TrackIdsFit(lib, i);
    TrackDecodes(t, tail[|TrackRow(t)|..]);
  }

  // In terms of what was added: row i of the track table is the i-th add_track, with its
  // numbers in their fields and its texts in their slots.
  lemma AddedTrackReads(ops: seq<Op>, file: bytes, i: nat)
    requires Exported(Run(ops), file) && i < |AddedTracks(ops)|
    ensures PageTotal(file) >= 1 && |ReadTable(file, TRACKS)| == |AddedTracks(ops)|
    ensures DecodeTrack(Tail(file, TRACKS, i)).Some?
    ensures var r, add := DecodeTrack(Tail(file, TRACKS, i)).value, AddedTracks(ops)[i];
      Says(r, add.analysis, add.analyzePath)
  {
    hide InternsValid, KeysProper, TrackRefers, TrackRow, DecodeTrack, ReadTable, PageTotal, Says,
         Recovers, AllFit, FitsCounters, FilePages, TablesOf, RefersTo, NonEmpty;
    var lib := Run(ops);
    TrackFromAdd(ops, i);
    TableRecovered(lib, file, TRACKS);
    TableNumbers(lib);
    RowRead(ReadTable(file, TRACKS), TrackRows(lib.tracks), i);
    var t, tail := lib.tracks[i], Tail(file, TRACKS, i);
    TrackIdsFit(lib, i);
    TrackRowSays(t, tail[|TrackRow(t)|..]);
  }

  // And its ids lead to the names it was added with.
  lemma AddedNamesResolve(ops: seq<Op>, file: bytes, i: nat)
    requires Exported(Run(ops), file) && i < |AddedTracks(ops)|
    ensures PageTotal(file) >= 1 && i < |ReadTable(file, TRACKS)| && DecodeTrack(Tail(file, TRACKS, i)).Some?
    ensures var r, a := DecodeTrack(Tail(file, TRACKS, i)).value, AddedTracks(ops)[i].analysis;
      && Resolves(ReadTable(file, ARTISTS), DecodeArtist, r.artistId, NonEmpty(Some(a.artist)))
      && Resolves(ReadTable(file, GENRES), DecodeNamed, r.genreId, NonEmpty(a.genre))
      && Resolves(ReadTable(file, LABELS), DecodeNamed, r.labelId, NonEmpty(a.recordLabel))
      && Resolves(ReadTable(file, KEYS), DecodeKey, r.keyId,
                  match a.key case None => None case Some(k) => Some(KeyName(k)))
      && ResolvesAlbum(ReadTable(file, ALBUMS), r.albumId,
                       match NonEmpty(a.album) case None => None case Some(n) => Some((n, r.artistId)))
  {
    hide Exported, DecodeTrack, ReadTable, PageTotal, Resolves, ResolvesAlbum, NonEmpty, RefersTo, Run, KeyName;
    TrackFromAdd(ops, i);
    TrackNamesResolve(Run(ops), file, i);
    TrackKeyResolves(Run(ops), file, i);
    TrackAlbumResolves(Run(ops), file, i);
  }

  // The album an id in a track row leads to: its only row, with the track's own album
  // name and artist.
  ghost predicate ResolvesAlbum(tails: seq<bytes>, id: nat, album: Option<AlbumKey>) {
    match album
    case None => id == 0
    case Some((name, artistId)) =>
      && id != 0
      && exists i :: 0 <= i < |tails| && DecodeAlbum(tails[i]) == Some((id, artistId, name)) && OnlyAlbum(tails, i, id)
  }

  ghost predicate OnlyAlbum(tails: seq<bytes>, i: nat, id: nat) {
    forall j :: 0 <= j < |tails| && DecodeAlbum(tails[j]).Some? && DecodeAlbum(tails[j]).value.0 == id ==> j == i
  }

  ghost predicate ReadsAlbums(tails: seq<bytes>, albums: seq<AlbumKey>) {
    |tails| == |albums| && forall i :: 0 <= i < |albums| ==>
      DecodeAlbum(tails[i]) == Some((i + 1, albums[i].1, albums[i].0))
  }

  lemma AlbumTableReads(tails: seq<bytes>, albums: seq<AlbumKey>)
    requires Recovers(tails, AlbumRows(albums)) && AllFit(AlbumRows(albums)) && |albums| < U32_LIMIT
    requires forall i :: 0 <= i < |albums| ==> albums[i].1 < U32_LIMIT
    ensures ReadsAlbums(tails, albums)
  {
    hide AlbumRow, DecodeAlbum, Recovers, AllFit;
    forall i | 0 <= i < |albums|
      ensures |tails| == |albums| && DecodeAlbum(tails[i]) == Some((i + 1, albums[i].1, albums[i].0))
    {
      RowRead(tails, AlbumRows(albums), i);
      AlbumRowLength(i + 1, albums[i].1, albums[i].0);
      AlbumDecodes(i + 1, albums[i].1, albums[i].0, tails[i][|AlbumRow(i + 1, albums[i].1, albums[i].0)|..]);
    }
    RecoveredLength(tails, AlbumRows(albums));
  }

  lemma AlbumRowLength(id: nat, artistId: nat, name: string)
    ensures EncodedLength(name) <= |AlbumRow(id, artistId, name)|
  {
    hide EncodedLength, AlbumHead;
  }

  lemma AlbumResolves(tails: seq<bytes>, m: Intern<AlbumKey>, id: nat, album: Option<AlbumKey>)
    requires m.Valid() && ReadsAlbums(tails, m.Order()) && RefersTo(m, id, album)
    ensures ResolvesAlbum(tails, id, album)
  {
    hide DecodeAlbum;
    if album.Some? {
      var albums := m.Order();
      assert m.ids[albums[id - 1]] == id && albums[id - 1] == album.value;
      assert OnlyAlbum(tails, id - 1, id);
    }
  }

  // ---- The whole export ----------------------------------------------------------------------

  // Every reference of a track that was read back resolves within the same file: to one
  // row of the table it points into, and that row holds the track's own value.
  lemma TrackNamesResolve(lib: Library, file: bytes, i: nat)
    requires Exported(lib, file) && i < |lib.tracks|
    ensures PageTotal(file) >= 1 && i < |ReadTable(file, TRACKS)| && DecodeTrack(Tail(file, TRACKS, i)).Some?
    ensures var r, a := DecodeTrack(Tail(file, TRACKS, i)).value, lib.tracks[i].analysis;
      && Resolves(ReadTable(file, ARTISTS), DecodeArtist, r.artistId, NonEmpty(Some(a.artist)))
      && Resolves(ReadTable(file, GENRES), DecodeNamed, r.genreId, NonEmpty(a.genre))
      && Resolves(ReadTable(file, LABELS), DecodeNamed, r.labelId, NonEmpty(a.recordLabel))
  {
    hide InternsValid, KeysProper, TrackRefers, DecodeTrack, DecodeNamed, DecodeArtist, ReadTable, PageTotal,
         Recovers, AllFit, FitsCounters, FilePages, TablesOf, NamedRows, ArtistRows, TrackStrings, NonEmpty,
         Resolves, ReadsNames;
    TracksRead(lib, file, i);
    TableNumbers(lib);
    TrackReferences(lib, i);
    var t := lib.tracks[i];
    TableRecovered(lib, file, ARTISTS);
    ArtistTableReads(ReadTable(file, ARTISTS), lib.artists.Order());
    ReferenceResolves(ReadTable(file, ARTISTS), DecodeArtist, lib.artists, t.artistId,
      NonEmpty(Some(t.analysis.artist)));
    TableRecovered(lib, file, GENRES);
    NamedTableReads(ReadTable(file, GENRES), lib.genres.Order());
    ReferenceResolves(ReadTable(file, GENRES), DecodeNamed, lib.genres, t.genreId, NonEmpty(t.analysis.genre));
    TableRecovered(lib, file, LABELS);
    NamedTableReads(ReadTable(file, LABELS), lib.labels.Order());
    ReferenceResolves(ReadTable(file, LABELS), DecodeNamed, lib.labels, t.labelId, NonEmpty(t.analysis.recordLabel));
  }

  // The artwork id of the track that the i-th add_track brought leads to the one row with
  // the path given there.
  lemma TrackArtworkResolves(ops: seq<Op>, file: bytes, i: nat)
    requires Exported(Run(ops), file) && i < |AddedTracks(ops)|
    ensures PageTotal(file) >= 1 && i < |ReadTable(file, TRACKS)| && DecodeTrack(Tail(file, TRACKS, i)).Some?
    ensures var r := DecodeTrack(Tail(file, TRACKS, i)).value;
      Resolves(ReadTable(file, ARTWORK), DecodeNamed, r.artworkId, NonEmpty(AddedTracks(ops)[i].artwork))
  {
    hide InternsValid, KeysProper, TrackRefers, DecodeTrack, DecodeNamed, ReadTable, PageTotal, Recovers,
         AllFit, FitsCounters, FilePages, TablesOf, NamedRows, TrackStrings, NonEmpty, Resolves, ReadsNames,
         Run, Exported;
    var lib := Run(ops);
    TrackFromAdd(ops, i);
    TracksRead(lib, file, i);
    TableNumbersOf(lib, file);
    TableRecovered(lib, file, ARTWORK);
    NamedTableReads(ReadTable(file, ARTWORK), lib.artworks.Order());
    var t, add := lib.tracks[i], AddedTracks(ops)[i];
    ReferenceResolves(ReadTable(file, ARTWORK), DecodeNamed, lib.artworks, t.artworkId, NonEmpty(add.artwork));
  }

  lemma TableNumbersOf(lib: Library, file: bytes)
    requires Exported(lib, file)
    ensures InternsValid(lib) && lib.artworks.Valid() && |lib.artworks.Order()| < U32_LIMIT
    ensures TablesOf(lib)[ARTWORK] == NamedRows(lib.artworks.Order())
  {
    hide NamedRows, FilePages, Intern.Order, TrackRefers, KeysProper;
    TableNumbers(lib);
  }

  lemma TrackReferences(lib: Library, i: nat)
    requires ValidLibrary(lib) && |lib.tracks| + 1 < U32_LIMIT && i < |lib.tracks|
    ensures InternsValid(lib) && TrackRefers(lib, lib.tracks[i])
    ensures lib.artists.Valid() && lib.genres.Valid() && lib.labels.Valid() && lib.albums.Valid() && lib.keys.Valid()
    ensures var t := lib.tracks[i];
      && RefersTo(lib.artists, t.artistId, NonEmpty(Some(t.analysis.artist)))
      && RefersTo(lib.albums, t.albumId, AlbumOf(t))
      && RefersTo(lib.genres, t.genreId, NonEmpty(t.analysis.genre))
      && RefersTo(lib.labels, t.labelId, NonEmpty(t.analysis.recordLabel))
      && RefersTo(lib.keys, t.keyId, KeyIdOf(t.analysis))
    ensures |lib.artists.Order()| < U32_LIMIT && |lib.genres.Order()| < U32_LIMIT && |lib.labels.Order()| < U32_LIMIT
    ensures |lib.albums.Order()| < U32_LIMIT && |lib.keys.Order()| < U32_LIMIT
  {
    hide RefersTo, NonEmpty, KeysProper, AlbumOf, KeyIdOf;
  }

  // The album reference leads to the only album row with that id; the row carries the
  // track's album name and the track's own artist id.
  lemma TrackAlbumResolves(lib: Library, file: bytes, i: nat)
    requires Exported(lib, file) && i < |lib.tracks|
    ensures PageTotal(file) >= 1 && i < |ReadTable(file, TRACKS)| && DecodeTrack(Tail(file, TRACKS, i)).Some?
    ensures var r, album := DecodeTrack(Tail(file, TRACKS, i)).value, NonEmpty(lib.tracks[i].analysis.album);
      ResolvesAlbum(ReadTable(file, ALBUMS), r.albumId,
                    match album case None => None case Some(n) => Some((n, r.artistId)))
  {
    hide InternsValid, TrackRefers, DecodeTrack, DecodeAlbum, ReadTable, PageTotal, Recovers, AllFit,
         FitsCounters, FilePages, TablesOf, AlbumRows, TrackStrings, NonEmpty, ResolvesAlbum, ReadsAlbums;
    TracksRead(lib, file, i);
    TableNumbers(lib);
    TrackReferences(lib, i);
    TableRecovered(lib, file, ALBUMS);
    AlbumArtistsFit(lib);
    AlbumTableReads(ReadTable(file, ALBUMS), lib.albums.Order());
    AlbumResolves(ReadTable(file, ALBUMS), lib.albums, lib.tracks[i].albumId, AlbumOf(lib.tracks[i]));
  }

  lemma AlbumArtistsFit(lib: Library)
    requires ValidLibrary(lib) && |lib.tracks| + 1 < U32_LIMIT
    ensures lib.albums.Valid()
    ensures forall k :: 0 <= k < |lib.albums.Order()| ==> lib.albums.Order()[k].1 < U32_LIMIT
  {
    hide TrackRefers;
    forall k | 0 <= k < |lib.albums.Order()|
      ensures lib.albums.Order()[k].1 < U32_LIMIT
    {
      assert lib.albums.Order()[k] in lib.albums.ids;
    }
  }

  // The key reference leads to the only key row with that id, named after the track's key.
  lemma TrackKeyResolves(lib: Library, file: bytes, i: nat)
    requires Exported(lib, file) && i < |lib.tracks|
    ensures PageTotal(file) >= 1 && i < |ReadTable(file, TRACKS)| && DecodeTrack(Tail(file, TRACKS, i)).Some?
    ensures var r, key := DecodeTrack(Tail(file, TRACKS, i)).value, lib.tracks[i].analysis.key;
      Resolves(ReadTable(file, KEYS), DecodeKey, r.keyId, match key case None => None case Some(k) => Some(KeyName(k)))
  {
    hide InternsValid, KeysProper, TrackRefers, DecodeTrack, DecodeKey, ReadTable, PageTotal, Recovers, AllFit,
         FitsCounters, FilePages, TablesOf, KeyRows, KeyNames, TrackStrings, Resolves, ReadsNames, KeyName;
    TracksRead(lib, file, i);
    TableNumbers(lib);
    TrackReferences(lib, i);
    TableRecovered(lib, file, KEYS);
    KeyTableReads(ReadTable(file, KEYS), KeyNames(lib.keys.Order()));
    KeyResolves(ReadTable(file, KEYS), lib.keys, lib.tracks[i].keyId, lib.tracks[i].analysis);
  }

  lemma KeyResolves(tails: seq<bytes>, m: Intern<nat>, id: nat, a: Analysis)
    requires m.Valid() && ReadsNames(tails, DecodeKey, KeyNames(m.Order())) && RefersTo(m, id, KeyIdOf(a))
    ensures Resolves(tails, DecodeKey, id, match a.key case None => None case Some(k) => Some(KeyName(k)))
  {
    hide DecodeKey, KeyName, ToRekordboxId, FromRekordboxId;
    if a.key.Some? {
      var ids := m.Order();
      KeyIdsInvert(a.key.value);
      assert m.ids[ids[id - 1]] == id && ids[id - 1] == ToRekordboxId(a.key.value);
      assert KeyNames(ids)[id - 1] == KeyName(a.key.value);
      assert DecodeKey(tails[id - 1]) == Some((id, KeyName(a.key.value)));
      assert OnlyRow(tails, DecodeKey, id - 1, id);
    }
  }

  // Playlists and folders read back in the order they were added.
  lemma PlaylistsRead(lib: Library, file: bytes, i: nat)
    requires Exported(lib, file) && i < |lib.playlists|
    ensures PageTotal(file) >= 1 && |ReadTable(file, PLAYLIST_TREE)| == |lib.playlists|
    ensures var p := lib.playlists[i];
      DecodePlaylist(Tail(file, PLAYLIST_TREE, i)) == Some((p.parentId as nat, i, p.id as nat, p.isFolder, p.name))
  {
    hide InternsValid, KeysProper, TrackRefers, DecodePlaylist, ReadTable, PageTotal, Recovers, AllFit,
         FitsCounters, FilePages, TablesOf, PlaylistTreeRow;
    TableRecovered(lib, file, PLAYLIST_TREE);
    TableNumbers(lib);
    RowRead(ReadTable(file, PLAYLIST_TREE), PlaylistRows(lib.playlists), i);
    var p, tail := lib.playlists[i], Tail(file, PLAYLIST_TREE, i);
    PlaylistRowLength(p);
    PlaylistDecodes(p, tail[|PlaylistTreeRow(p)|..]);
  }

  lemma PlaylistRowLength(p: PlaylistInfo)
    ensures EncodedLength(p.name) <= |PlaylistTreeRow(p)|
  {
    hide EncodedLength, PlaylistHead;
  }

  // Playlist entries read back: every playlist's tracks in order, numbered from 1.
  lemma EntriesRead(lib: Library, file: bytes, i: nat)
    requires Exported(lib, file) && i < |Entries(lib.playlists)|
    ensures PageTotal(file) >= 1 && |ReadTable(file, PLAYLIST_ENTRIES)| == |Entries(lib.playlists)|
    ensures DecodeEntry(Tail(file, PLAYLIST_ENTRIES, i)) == Some(Entries(lib.playlists)[i])
  {
    hide InternsValid, KeysProper, TrackRefers, DecodeEntry, ReadTable, PageTotal, Recovers, AllFit,
         FitsCounters, FilePages, TablesOf, PlaylistEntryRow, Entries;
    TableRecovered(lib, file, PLAYLIST_ENTRIES);
    TableNumbers(lib);
    var entries := Entries(lib.playlists);
    RowRead(ReadTable(file, PLAYLIST_ENTRIES), EntryRows(entries), i);
    EntriesFit(lib.playlists, i);
    var (index, trackId, playlistId) := entries[i];
    var rest := Tail(file, PLAYLIST_ENTRIES, i)[|PlaylistEntryRow(index, trackId, playlistId)|..];
    EntryDecodes(index, trackId, playlistId, rest);
  }

  // In terms of what was added: row i of the playlist tree is the i-th playlist or folder.
  lemma AddedPlaylistReads(ops: seq<Op>, file: bytes, i: nat)
    requires Exported(Run(ops), file) && i < |AddedPlaylists(ops)|
    ensures PageTotal(file) >= 1 && |ReadTable(file, PLAYLIST_TREE)| == |AddedPlaylists(ops)|
    ensures var add := AddedPlaylists(ops)[i];
      DecodePlaylist(Tail(file, PLAYLIST_TREE, i))
      == Some((add.parentId as nat, i, add.id as nat, add.AddFolder?, add.name))
  {
    hide Exported, DecodePlaylist, ReadTable, PageTotal, Run;
    PlaylistFromAdd(ops, i);
    PlaylistsRead(Run(ops), file, i);
  }

  // And the entry of track j of a playlist is behind those of the playlists before it.
  lemma AddedEntryReads(ops: seq<Op>, file: bytes, p: nat, j: nat)
    requires Exported(Run(ops), file) && p < |AddedPlaylists(ops)|
    requires var add := AddedPlaylists(ops)[p]; add.AddPlaylist? && j < |add.trackIds|
    ensures PageTotal(file) >= 1 && p < |Run(ops).playlists|
    ensures var row, add := EntriesBefore(Run(ops).playlists, p) + j, AddedPlaylists(ops)[p];
      && row < |ReadTable(file, PLAYLIST_ENTRIES)|
      && DecodeEntry(Tail(file, PLAYLIST_ENTRIES, row)) == Some((j + 1, add.trackIds[j] as nat, add.id as nat))
  {
    hide Exported, DecodeEntry, ReadTable, PageTotal, Run, Entries, EntriesBefore;
    PlaylistFromAdd(ops, p);
    EntryPlace(Run(ops).playlists, p, j);
    EntriesRead(Run(ops), file, EntriesBefore(Run(ops).playlists, p) + j);
  }

  lemma {:induction false} EntriesFit(playlists: seq<PlaylistInfo>, i: nat)
    requires i < |Entries(playlists)| && forall p :: 0 <= p < |playlists| ==> |playlists[p].trackIds| < U32_LIMIT
    ensures var e := Entries(playlists)[i];
      e.0 < U32_LIMIT && e.1 < U32_LIMIT && e.2 < U32_LIMIT
  {
    var first := EntriesOf(playlists[0]);
    if i < |first| {
      assert first[i] == (i + 1, playlists[0].trackIds[i] as nat, playlists[0].id as nat);
    } else {
      EntriesFit(playlists[1..], i - |first|);
    }
  }

  // build fails exactly when a row made from added data is too long; the tables with
  // fixed rows never make it fail, and each takes a single page.
  lemma BuildFailsExactlyOnLongRows(lib: Library)
    requires InternsValid(lib)
    ensures AllTablesFit(TablesOf(lib)) <==>
      && AllFit(TrackRows(lib.tracks)) && AllFit(NamedRows(lib.genres.Order())) &&
           AllFit(ArtistRows(lib.artists.Order()))
      && AllFit(AlbumRows(lib.albums.Order())) && AllFit(NamedRows(lib.labels.Order())) &&
           AllFit(KeyRows(KeyNames(lib.keys.Order())))
      && AllFit(PlaylistRows(lib.playlists)) && AllFit(NamedRows(lib.artworks.Order()))
  {
    hide AllFit, AllTablesFit, TablesOf, Intern.Order, Intern.Valid, InternsValid;
    hide TrackRows, NamedRows, ArtistRows, AlbumRows, KeyRows, KeyNames, PlaylistRows, EntryRows, Entries;
    TableNumbers(lib);
    FixedTables(lib);
    EntryRowsAreShort(Entries(lib.playlists));
    NoRowsAreShort();
    EveryTable(TablesOf(lib));
  }

  // The tables that do not depend on what was added.
  lemma FixedTables(lib: Library)
    requires InternsValid(lib)
    ensures var t := TablesOf(lib); AllFit(t[6]) && AllFit(t[16]) && AllFit(t[17]) && AllFit(t[18]) && AllFit(t[19])
    ensures var t := TablesOf(lib); t[9] == t[10] == t[11] == t[12] == t[14] == t[15] == []
  {
    hide AllFit, DataGroups, Intern.Order, Intern.Valid, InternsValid;
    hide TrackRows, NamedRows, ArtistRows, AlbumRows, KeyRows, KeyNames, ColorRows, PlaylistRows, EntryRows,
         Entries, ColumnRows, QuadRows, HistoryRows;
    FixedTablesTakeOnePage();
  }

  // Every exported file has the tables with fixed rows, whatever was added: colours,
  // columns, the two unnamed ones and history.
  lemma FixedTablesRead(lib: Library, file: bytes)
    requires Exported(lib, file)
    ensures PageTotal(file) >= 1
    ensures Recovers(ReadTable(file, 6), ColorRows()) && Recovers(ReadTable(file, 16), ColumnRows())
    ensures Recovers(ReadTable(file, 17), QuadRows(UNKNOWN17)) && Recovers(ReadTable(file, 18), QuadRows(UNKNOWN18))
    ensures Recovers(ReadTable(file, 19), HistoryRows())
    ensures forall t :: t in {9, 10, 11, 12, 14, 15} ==> ReadTable(file, t) == []
  {
    hide InternsValid, TrackRefers, TablesOf, FilePages, ReadTable, PageTotal, Recovers, Concat, FitsCounters,
         ColorRows, ColumnRows, QuadRows, HistoryRows, ValidLibrary, AllTablesFit;
    TableRecovered(lib, file, 6);
    TableRecovered(lib, file, 16);
    TableRecovered(lib, file, 17);
    TableRecovered(lib, file, 18);
    TableRecovered(lib, file, 19);
    ValidMeansInterns(lib);
    FixedNumbers(lib);
    forall t | t in {9, 10, 11, 12, 14, 15}
      ensures ReadTable(file, t) == []
    {
      TableRecovered(lib, file, t);
      NothingRecovered(ReadTable(file, t));
    }
  }

  lemma NothingRecovered(tails: seq<bytes>)
    requires Recovers(tails, [])
    ensures tails == []
  {}

  lemma FixedNumbers(lib: Library)
    requires InternsValid(lib)
    ensures var t := TablesOf(lib);
      && t[6] == ColorRows() && t[16] == ColumnRows() && t[17] == QuadRows(UNKNOWN17) && t[18] == QuadRows(UNKNOWN18)
      && t[19] == HistoryRows() && t[9] == t[10] == t[11] == t[12] == t[14] == t[15] == []
  {
    hide Intern.Order, Intern.Valid, InternsValid;
    hide TrackRows, NamedRows, ArtistRows, AlbumRows, KeyRows, KeyNames, ColorRows, PlaylistRows, EntryRows,
         Entries, ColumnRows, QuadRows, HistoryRows;
  }

  predicate SmallTables(tables: Tables) {
    forall t :: 0 <= t < |tables| ==> tables[t] == [] || OnePage(tables[t])
  }

  lemma {:induction false} SmallTablesStart(tables: Tables, n: nat)
    requires SmallTables(tables) && n <= |tables|
    ensures Start(tables, n) == 1 + 2 * n
  {
    hide AllFit, DataGroups;
    if n > 0 {
      SmallTablesStart(tables, n - 1);
      assert tables[n - 1] == [] || OnePage(tables[n - 1]);
    }
  }

  lemma EmptyLibraryTables(tables: Tables)
    requires InternsValid(EMPTY_LIBRARY) && tables == TablesOf(EMPTY_LIBRARY)
    ensures SmallTables(tables)
  {
    hide OnePage, ColorRows, ColumnRows, QuadRows, HistoryRows, Intern.Valid, InternsValid;
    FixedTablesTakeOnePage();
  }

  lemma SmallTablesFit(tables: Tables)
    requires SmallTables(tables)
    ensures AllTablesFit(tables)
  {
    hide DataGroups;
    forall t | 0 <= t < |tables|
      ensures AllFit(tables[t])
    {
      assert tables[t] == [] || OnePage(tables[t]);
    }
  }

  lemma SmallTablesImage(tables: Tables)
    requires SmallTables(tables) && |tables| == TABLE_COUNT
    ensures AllTablesFit(tables) && FitsCounters(tables) && PageTotal(Concat(FilePages(tables, 0))) == 41
  {
    hide FilePages, FileImage, Concat, AllTablesFit, SmallTables, Start, DataTables, PageAt, PageTotal,
         HeaderPage, IndexPage, DataPagesAt, DataGroups, FirstSequence, Phantom;
    SmallTablesFit(tables);
    SmallTablesStart(tables, TABLE_COUNT);
    FilePagesAreAnImage(tables, 0);
    TableAt(FilePages(tables, 0), tables, 0, 0);
  }

  // With nothing added the build still succeeds: the tables with fixed rows have one data
  // page each, so the file has 41 pages.
  lemma EmptyLibraryExports() returns (file: bytes)
    ensures Exported(EMPTY_LIBRARY, file) && PageTotal(file) == 41
  {
    hide TablesOf, FilePages, Concat, AllTablesFit, FitsCounters, SmallTables, PageTotal, ValidLibrary;
    EmptyIsValid();
    assert InternsValid(EMPTY_LIBRARY) by { ValidMeansInterns(EMPTY_LIBRARY); }
    var tables := TablesOf(EMPTY_LIBRARY);
    EmptyLibraryTables(tables);
    SmallTablesImage(tables);
    file := Concat(FilePages(tables, 0));
  }

  lemma ValidMeansInterns(lib: Library)
    requires ValidLibrary(lib)
    ensures InternsValid(lib)
  {}

  lemma EveryTable(t: Tables)
    requires |t| == TABLE_COUNT
    ensures AllTablesFit(t) <==>
      && AllFit(t[0]) && AllFit(t[1]) && AllFit(t[2]) && AllFit(t[3]) && AllFit(t[4])
      && AllFit(t[5]) && AllFit(t[6]) && AllFit(t[7]) && AllFit(t[8]) && AllFit(t[9])
      && AllFit(t[10]) && AllFit(t[11]) && AllFit(t[12]) && AllFit(t[13]) && AllFit(t[14])
      && AllFit(t[15]) && AllFit(t[16]) && AllFit(t[17]) && AllFit(t[18]) && AllFit(t[19])
  {
    hide AllFit;
  }

  lemma EntryRowsAreShort(entries: seq<(nat, nat, nat)>)
    ensures AllFit(EntryRows(entries))
  {
    hide LE32;
  }

  lemma NoRowsAreShort()
    ensures AllFit([])
  {}

  // The repository's own validator counts every row of an exported file rightly and yet
  // always reports it invalid, for one reason: next_unused_page counts the phantom pages.
  lemma ExportReport(lib: Library, file: bytes)
    requires Exported(lib, file)
    ensures PageTotal(file) >= 1
    ensures var r := ValidatePdb.ReportOn(file);
      && r.errors == [ValidatePdb.NextUnusedBeyondFile] && !r.IsValid()
      && {TRACKS, GENRES, ARTISTS, ALBUMS, KEYS, PLAYLIST_TREE, PLAYLIST_ENTRIES} <= r.counts.Keys
      && r.counts[TRACKS] == |lib.tracks| && r.counts[GENRES] == |lib.genres.Order()|
      && r.counts[ARTISTS] == |lib.artists.Order()| && r.counts[ALBUMS] == |lib.albums.Order()|
      && r.counts[KEYS] == |KeyNames(lib.keys.Order())| && r.counts[PLAYLIST_TREE] == |lib.playlists|
      && r.counts[PLAYLIST_ENTRIES] == |Entries(lib.playlists)|
  {
    hide InternsValid, TrackRefers, TablesOf, FilePages, PageTotal, Concat, FitsCounters, AllTablesFit,
         ValidatePdb.ReportOn, Intern.Order, Entries, KeyNames, ValidatePdb.IsCounted, FileImage;
    var tables := TablesOf(lib);
    FilePagesAreAnImage(tables, |lib.tracks|);
    ValidatePdb.BuiltFileReport(FilePages(tables, |lib.tracks|), tables, |lib.tracks|);
    TableNumbers(lib);
    RowCounts(lib);
    Counted();
  }

  lemma Counted()
    ensures ValidatePdb.IsCounted(TRACKS) && ValidatePdb.IsCounted(GENRES) && ValidatePdb.IsCounted(ARTISTS)
    ensures ValidatePdb.IsCounted(ALBUMS)
    ensures ValidatePdb.IsCounted(KEYS) && ValidatePdb.IsCounted(PLAYLIST_TREE)
    ensures ValidatePdb.IsCounted(PLAYLIST_ENTRIES)
  {}

  lemma RowCounts(lib: Library)
    requires InternsValid(lib)
    ensures |TrackRows(lib.tracks)| == |lib.tracks| && |NamedRows(lib.genres.Order())| == |lib.genres.Order()|
    ensures |ArtistRows(lib.artists.Order())| == |lib.artists.Order()|
    ensures |AlbumRows(lib.albums.Order())| == |lib.albums.Order()|
    ensures |KeyRows(KeyNames(lib.keys.Order()))| == |KeyNames(lib.keys.Order())|
    ensures |PlaylistRows(lib.playlists)| == |lib.playlists|
    ensures |EntryRows(Entries(lib.playlists))| == |Entries(lib.playlists)|
    ensures TablesOf(lib)[6] != []
  {
    hide Intern.Order, Intern.Valid, InternsValid, Entries, KeyNames, TrackRow, NamedRow, ColumnRows, QuadRows,
         HistoryRows;
  }
}
