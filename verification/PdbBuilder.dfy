// PdbBuilder of crates/bvault-core/src/pdb.rs: its mutable state, add_ methods and build.
module PdbBuilder {
  import opened Wrappers
  import opened Bytes
  import opened Page
  import opened Layout
  import opened Tracks
  import opened RowCodec
  import opened Library
  import opened PdbWriter
  import ExportReads

  class PdbBuilder {
    var tracks: seq<TrackInfo>
    var artists: Intern<string>
    var albums: Intern<AlbumKey>
    var genres: Intern<string>
    var labels: Intern<string>
    var keys: Intern<nat>
    var artworks: Intern<string>
    var playlists: seq<PlaylistInfo>

    ghost function Model(): Library
      reads this
    {
      Library(tracks, artists, albums, genres, labels, keys, artworks, playlists)
    }

    ghost predicate Valid()
      reads this
    {
      ValidLibrary(Model())
    }

    constructor ()
      ensures Valid() && Model() == EMPTY_LIBRARY
    {
      tracks, playlists := [], [];
      artists, genres, labels, artworks := Intern(map[], 1), Intern(map[], 1), Intern(map[], 1), Intern(map[], 1);
      albums, keys := Intern(map[], 1), Intern(map[], 1);
      new;
      EmptyIsValid();
    }

    method GetOrCreateArtist(name: string) returns (id: nat)
      modifies this`artists
      ensures (artists, id) == EnterName(old(artists), name)
    {
      if name == "" {
        return 0;
      }
      if name in artists.ids {
        return artists.ids[name];
      }
      id := artists.next;
      artists := Intern(artists.ids[name := id], id + 1);
    }

    method GetOrCreateAlbum(name: string, artistId: nat) returns (id: nat)
      modifies this`albums
      ensures (albums, id) == EnterAlbum(old(albums), Some(name), artistId)
    {
      if name == "" {
        return 0;
      }
      var key := (name, artistId);
      if key in albums.ids {
        return albums.ids[key];
      }
      id := albums.next;
      albums := Intern(albums.ids[key := id], id + 1);
    }

    method GetOrCreateGenre(name: string) returns (id: nat)
      modifies this`genres
      ensures (genres, id) == EnterName(old(genres), name)
    {
      if name == "" {
        return 0;
      }
      if name in genres.ids {
        return genres.ids[name];
      }
      id := genres.next;
      genres := Intern(genres.ids[name := id], id + 1);
    }

    method GetOrCreateLabel(name: string) returns (id: nat)
      modifies this`labels
      ensures (labels, id) == EnterName(old(labels), name)
    {
      if name == "" {
        return 0;
      }
      if name in labels.ids {
        return labels.ids[name];
      }
      id := labels.next;
      labels := Intern(labels.ids[name := id], id + 1);
    }

    method GetOrCreateKey(rekordboxId: nat) returns (id: nat)
      modifies this`keys
      ensures (keys, id) == old(keys).Enter(rekordboxId)
    {
      if rekordboxId in keys.ids {
        return keys.ids[rekordboxId];
      }
      id := keys.next;
      keys := Intern(keys.ids[rekordboxId := id], id + 1);
    }

    method GetOrCreateArtwork(path: string) returns (id: nat)
      modifies this`artworks
      ensures (artworks, id) == EnterName(old(artworks), path)
    {
      if path == "" {
        return 0;
      }
      if path in artworks.ids {
        return artworks.ids[path];
      }
      id := artworks.next;
      artworks := Intern(artworks.ids[path := id], id + 1);
    }

    method AddTrackWithArtwork(a: Analysis, analyzePath: string, artwork: Option<string>) returns (trackId: nat)
      requires Valid()
      modifies this
      ensures Valid() && trackId == a.id
      ensures Model() == Apply(old(Model()), AddTrack(a, analyzePath, artwork))
    {
      hide ValidLibrary, EnterName, ToRekordboxId;
      ghost var before := Model();
      var artistId := GetOrCreateArtist(a.artist);
      var albumId, genreId, labelId, keyId, artworkId := 0, 0, 0, 0, 0;
      if a.album.Some? {
        albumId := GetOrCreateAlbum(a.album.value, artistId);
      }
      if a.genre.Some? {
        genreId := GetOrCreateGenre(a.genre.value);
      }
      if a.recordLabel.Some? {
        labelId := GetOrCreateLabel(a.recordLabel.value);
      }
      if a.key.Some? {
        keyId := GetOrCreateKey(ToRekordboxId(a.key.value));
      }
      if artwork.Some? {
        artworkId := GetOrCreateArtwork(artwork.value);
      }
      tracks := tracks + [TrackInfo(a, artistId, albumId, genreId, labelId, keyId, artworkId, analyzePath)];
      ApplyKeeps(before, AddTrack(a, analyzePath, artwork));
      trackId := a.id;
    }

    method AddPlaylist(id: u32, parentId: u32, name: string, trackIds: seq<u32>)
      requires Valid()
      modifies this
      ensures Valid() && Model() == Apply(old(Model()), Op.AddPlaylist(id, parentId, name, trackIds))
    {
      ApplyKeeps(Model(), Op.AddPlaylist(id, parentId, name, trackIds));
      playlists := playlists + [PlaylistInfo(id, parentId, name, false, |playlists|, trackIds)];
    }

    method AddFolder(id: u32, parentId: u32, name: string)
      requires Valid()
      modifies this
      ensures Valid() && Model() == Apply(old(Model()), Op.AddFolder(id, parentId, name))
    {
      ApplyKeeps(Model(), Op.AddFolder(id, parentId, name));
      playlists := playlists + [PlaylistInfo(id, parentId, name, true, |playlists|, [])];
    }

    // Fails exactly when some row of some table is longer than 4020 bytes; otherwise the
    // file holds every table's rows, laid out as Layout says.
    method Build() returns (r: Result<bytes, PageError>)
      requires Valid()
      ensures r.Success? <==> AllTablesFit(TablesOf(Model()))
      ensures r.Success? ==> r.value == Concat(FilePages(TablesOf(Model()), |tracks|))
      ensures r.Success? && ExportReads.CountersFit(Model()) ==> ExportReads.Exported(Model(), r.value)
    {
      hide AllTablesFit, FilePages, Concat;
      var tables := BuildRows();
      r := BuildFile(tables, |tracks|);
    }

    method BuildRows() returns (tables: Tables)
      requires Valid()
      ensures tables == TablesOf(Model())
    {
      hide TrackRow, NamedRows, ArtistRows, AlbumRows, KeyRows, KeyNames, ColorRows, PlaylistRows, EntryRows,
           Entries, ColumnRows, QuadRows, HistoryRows;
      var trackRows: seq<Row> := [];
      for i := 0 to |tracks|
        invariant |trackRows| == i && forall j :: 0 <= j < i ==> trackRows[j] == TrackRow(tracks[j])
      {
        var row := BuildTrackRow(tracks[i]);
        trackRows := trackRows + [row];
      }
      assert trackRows == TrackRows(tracks);
      var genreNames := SortedKeys(genres);
      var artistNames := SortedKeys(artists);
      var albumKeys := SortedKeys(albums);
      var labelNames := SortedKeys(labels);
      var keyIds := SortedKeys(keys);
      var artworkPaths := SortedKeys(artworks);
      var entries := CollectEntries();
      tables := [
        trackRows, NamedRows(genreNames), ArtistRows(artistNames), AlbumRows(albumKeys), NamedRows(labelNames),
        KeyRows(KeyNames(keyIds)), ColorRows(), PlaylistRows(playlists), EntryRows(entries), [], [], [], [],
        NamedRows(artworkPaths), [], [], ColumnRows(), QuadRows(UNKNOWN17), QuadRows(UNKNOWN18), HistoryRows()];
    }

    // filter, enumerate and flat_map over the playlists.
    method CollectEntries() returns (entries: seq<(nat, nat, nat)>)
      ensures entries == Entries(playlists)
    {
      hide Entries, EntriesOf;
      entries := [];
      assert playlists[0..] == playlists;
      for p := 0 to |playlists|
        invariant entries + Entries(playlists[p..]) == Entries(playlists)
      {
        var playlist := playlists[p];
        EntriesStep(entries, playlists, p);
        if !playlist.isFolder {
          var more := CollectEntriesOf(playlist);
          entries := entries + more;
        }
      }
      NoEntriesLeft(playlists);
    }

    static method CollectEntriesOf(playlist: PlaylistInfo) returns (entries: seq<(nat, nat, nat)>)
      requires !playlist.isFolder
      ensures entries == EntriesOf(playlist)
    {
      entries := [];
      for i := 0 to |playlist.trackIds|
        invariant |entries| == i && forall j :: 0 <= j < i ==>
          entries[j] == (j + 1, playlist.trackIds[j] as nat, playlist.id as nat)
      {
        entries := entries + [(i + 1, playlist.trackIds[i] as nat, playlist.id as nat)];
      }
    }

    static lemma EntriesStep(done: seq<(nat, nat, nat)>, playlists: seq<PlaylistInfo>, p: nat)
      requires p < |playlists|
      ensures done + Entries(playlists[p..]) == done + EntriesOf(playlists[p]) + Entries(playlists[p + 1..])
      ensures playlists[p].isFolder ==> EntriesOf(playlists[p]) == []
    {
      hide EntriesOf;
      assert playlists[p..][1..] == playlists[p + 1..];
      FolderHasNoEntries(playlists[p]);
    }

    static lemma NoEntriesLeft(playlists: seq<PlaylistInfo>)
      ensures Entries(playlists[|playlists|..]) == []
    {}

    static lemma FolderHasNoEntries(p: PlaylistInfo)
      ensures p.isFolder ==> EntriesOf(p) == []
    {}
  }
}
