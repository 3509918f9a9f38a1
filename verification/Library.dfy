// The state of crates/bvault-core/src/pdb.rs's PdbBuilder as a value: interned names,
// tracks and playlists, what each add_ call does to it, and the rows of its 20 tables.
module Library {
  import opened Wrappers
  import opened Bytes
  import opened Page
  import opened Layout
  import opened DeviceString
  import opened Tracks
  import opened RowCodec

  // ---- Interning ------------------------------------------------------------------

  datatype Intern<K(==)> = Intern(ids: map<K, nat>, next: nat) {
    // The ids are 1..next-1, each given to exactly one key.
    ghost predicate Valid() {
      && next >= 1
      && (forall k :: k in ids ==> 1 <= ids[k] < next)
      && (forall k, k' :: k in ids && k' in ids && ids[k] == ids[k'] ==> k == k')
      && (forall i :: 1 <= i < next ==> Used(i))
    }

    ghost predicate Used(i: nat) {
      exists k :: k in ids && ids[k] == i
    }

    // get_or_create: the key's id, and a fresh one for a new key.
    function Enter(k: K): (Intern<K>, nat) {
      if k in ids then (this, ids[k]) else (Intern(ids[k := next], next + 1), next)
    }

    // A key keeps its id in every later state.
    ghost predicate Extends(before: Intern<K>) {
      before.next <= next && forall k :: k in before.ids ==> k in ids && ids[k] == before.ids[k]
    }

    ghost function KeyOf(i: nat): (k: K)
      requires Valid() && 1 <= i < next
      ensures k in ids && ids[k] == i
    {
      assert Used(i);
      var k :| k in ids && ids[k] == i;
      k
    }

    // Keys sorted by id.
    ghost function Order(): (keys: seq<K>)
      requires Valid()
      ensures |keys| == next - 1
      ensures forall i :: 0 <= i < |keys| ==> keys[i] in ids && ids[keys[i]] == i + 1
    {
      seq(next - 1, i requires 0 <= i < next - 1 => KeyOf(i + 1))
    }

    lemma EnterKeeps(k: K)
      requires Valid()
      ensures var (after, id) := Enter(k);
        && after.Valid() && after.Extends(this) && k in after.ids && after.ids[k] == id &&
             1 <= id < after.next <= next + 1
        && after.ids.Keys == ids.Keys + {k}
    {
      var (after, id) := Enter(k);
      forall i | 1 <= i < after.next
        ensures after.Used(i)
      {
        if i < next {
          assert Used(i);
          var j :| j in ids && ids[j] == i;
          assert j in after.ids && after.ids[j] == i;
        } else {
          assert k in after.ids && after.ids[k] == i;
        }
      }
    }
  }

  // collect and sort_by_key.
  method SortedKeys<K(==)>(m: Intern<K>) returns (keys: seq<K>)
    requires m.Valid()
    ensures keys == m.Order()
  {
    keys := [];
    for i := 1 to m.next
      invariant |keys| == i - 1
      invariant forall j :: 0 <= j < |keys| ==> keys[j] in m.ids && m.ids[keys[j]] == j + 1
    {
      assert m.Used(i);
      var k :| k in m.ids && m.ids[k] == i;
      keys := keys + [k];
    }
  }

  // An empty name is never interned and has id 0.
  function EnterName(m: Intern<string>, name: string): (Intern<string>, nat) {
    if name == "" then (m, 0) else m.Enter(name)
  }

  function EnterOptional(m: Intern<string>, name: Option<string>): (Intern<string>, nat) {
    match name case None => (m, 0) case Some(n) => EnterName(m, n)
  }

  // ---- The builder's state ------------------------------------------------------------

  type AlbumKey = (string, nat)

  datatype Library = Library(
    tracks: seq<TrackInfo>, artists: Intern<string>, albums: Intern<AlbumKey>, genres: Intern<string>,
    labels: Intern<string>, keys: Intern<nat>, artworks: Intern<string>, playlists: seq<PlaylistInfo>)

  const EMPTY_LIBRARY: Library :=
    Library([], Intern(map[], 1), Intern(map[], 1), Intern(map[], 1), Intern(map[], 1), Intern(map[], 1),
      Intern(map[], 1), [])

  function EnterAlbum(m: Intern<AlbumKey>, name: Option<string>, artistId: nat): (Intern<AlbumKey>, nat) {
    match name
    case None => (m, 0)
    case Some(n) => if n == "" then (m, 0) else m.Enter((n, artistId))
  }

  function EnterKey(m: Intern<nat>, key: Option<Key>): (Intern<nat>, nat) {
    match key case None => (m, 0) case Some(k) => m.Enter(ToRekordboxId(k))
  }

  function WithTrack(lib: Library, a: Analysis, analyzePath: string, artwork: Option<string>): Library {
    var (artists, artistId) := EnterName(lib.artists, a.artist);
    var (albums, albumId) := EnterAlbum(lib.albums, a.album, artistId);
    var (genres, genreId) := EnterOptional(lib.genres, a.genre);
    var (labels, labelId) := EnterOptional(lib.labels, a.recordLabel);
    var (keys, keyId) := EnterKey(lib.keys, a.key);
    var (artworks, artworkId) := EnterOptional(lib.artworks, artwork);
    Library(lib.tracks + [TrackInfo(a, artistId, albumId, genreId, labelId, keyId, artworkId, analyzePath)],
            artists, albums, genres, labels, keys, artworks, lib.playlists)
  }

  function WithPlaylist(lib: Library, id: u32, parentId: u32, name: string, isFolder: bool,
                        trackIds: seq<u32>): Library {
    lib.(playlists := lib.playlists + [PlaylistInfo(id, parentId, name, isFolder, |lib.playlists|, trackIds)])
  }

  datatype Op =
    | AddTrack(analysis: Analysis, analyzePath: string, artwork: Option<string>)
    | AddPlaylist(id: u32, parentId: u32, name: string, trackIds: seq<u32>)
    | AddFolder(id: u32, parentId: u32, name: string)

  function Apply(lib: Library, op: Op): Library {
    match op
    case AddTrack(a, path, artwork) => WithTrack(lib, a, path, artwork)
    case AddPlaylist(id, parentId, name, trackIds) => WithPlaylist(lib, id, parentId, name, false, trackIds)
    case AddFolder(id, parentId, name) => WithPlaylist(lib, id, parentId, name, true, [])
  }

  // Any sequence of adds from an empty builder.
  function Run(ops: seq<Op>): Library {
    if ops == [] then EMPTY_LIBRARY else Apply(Run(ops[..|ops| - 1]), ops[|ops| - 1])
  }

  // Id 0 stands for no name; any other id is the one the name was given.
  ghost predicate RefersTo<K>(m: Intern<K>, id: nat, key: Option<K>) {
    match key
    case None => id == 0
    case Some(k) => k in m.ids && m.ids[k] == id
  }

  function NonEmpty(name: Option<string>): Option<string> {
    if name == Some("") then None else name
  }

  function AlbumOf(t: TrackInfo): Option<AlbumKey> {
    match NonEmpty(t.analysis.album) case None => None case Some(n) => Some((n, t.artistId))
  }

  function KeyIdOf(a: Analysis): Option<nat> {
    match a.key case None => None case Some(k) => Some(ToRekordboxId(k))
  }

  ghost predicate TrackRefers(lib: Library, t: TrackInfo) {
    && RefersTo(lib.artists, t.artistId, NonEmpty(Some(t.analysis.artist)))
    && RefersTo(lib.albums, t.albumId, AlbumOf(t))
    && RefersTo(lib.genres, t.genreId, NonEmpty(t.analysis.genre))
    && RefersTo(lib.labels, t.labelId, NonEmpty(t.analysis.recordLabel))
    && RefersTo(lib.keys, t.keyId, KeyIdOf(t.analysis))
    && t.artworkId < lib.artworks.next
  }

  ghost predicate InternsValid(lib: Library) {
    && lib.artists.Valid() && lib.albums.Valid() && lib.genres.Valid() && lib.labels.Valid() && lib.keys.Valid() &&
         lib.artworks.Valid()
  }

  // No interned name is empty, albums belong to known artists, key ids come from keys.
  ghost predicate KeysProper(lib: Library) {
    && "" !in lib.artists.ids && "" !in lib.genres.ids && "" !in lib.labels.ids && "" !in lib.artworks.ids
    && (forall k :: k in lib.albums.ids ==> k.0 != "" && k.1 < lib.artists.next)
    && (forall k :: k in lib.keys.ids ==> 1 <= k <= 24)
  }

  // Every track added at most one id of each kind.
  predicate IdsBounded(lib: Library) {
    var n := |lib.tracks| + 1;
    && lib.artists.next <= n && lib.albums.next <= n && lib.genres.next <= n
    && lib.labels.next <= n && lib.keys.next <= n && lib.artworks.next <= n
  }

  ghost predicate ValidLibrary(lib: Library) {
    && InternsValid(lib) && KeysProper(lib) && IdsBounded(lib)
    && (forall i :: 0 <= i < |lib.tracks| ==> TrackRefers(lib, lib.tracks[i]))
    && (forall i :: 0 <= i < |lib.playlists| ==> lib.playlists[i].sortOrder == i)
  }

  lemma EnterNameKeeps(m: Intern<string>, name: Option<string>)
    requires m.Valid() && "" !in m.ids
    ensures var (after, id) := EnterOptional(m, name);
      after.Valid() && after.Extends(m) && "" !in after.ids && id < after.next <= m.next + 1 &&
        RefersTo(after, id, NonEmpty(name))
  {
    if name.Some? && name.value != "" { m.EnterKeeps(name.value); }
  }

  lemma EnterAlbumKeeps(m: Intern<AlbumKey>, name: Option<string>, artistId: nat)
    requires m.Valid() && forall k :: k in m.ids ==> k.0 != ""
    ensures var (after, id) := EnterAlbum(m, name, artistId);
      && after.Valid() && after.Extends(m) && after.next <= m.next + 1
      && (forall k :: k in after.ids ==> k.0 != "" && (k in m.ids || k.1 == artistId))
      && RefersTo(after, id, match NonEmpty(name) case None => None case Some(n) => Some((n, artistId)))
  {
    if name.Some? && name.value != "" { m.EnterKeeps((name.value, artistId)); }
  }

  lemma EnterKeyKeeps(m: Intern<nat>, key: Option<Key>)
    requires m.Valid() && forall k :: k in m.ids ==> 1 <= k <= 24
    ensures var (after, id) := EnterKey(m, key);
      && after.Valid() && after.Extends(m) && (forall k :: k in after.ids ==> 1 <= k <= 24) && after.next <= m.next + 1
      && RefersTo(after, id, match key case None => None case Some(k) => Some(ToRekordboxId(k)))
  {
    if key.Some? { m.EnterKeeps(ToRekordboxId(key.value)); }
  }

  lemma WithTrackInterns(lib: Library, a: Analysis, analyzePath: string, artwork: Option<string>)
    requires InternsValid(lib) && KeysProper(lib) && IdsBounded(lib)
    ensures var after := WithTrack(lib, a, analyzePath, artwork);
      && InternsValid(after) && KeysProper(after) && IdsBounded(after)
      && after.artists.Extends(lib.artists) && after.albums.Extends(lib.albums) && after.genres.Extends(lib.genres)
      && after.labels.Extends(lib.labels) && after.keys.Extends(lib.keys) && after.artworks.Extends(lib.artworks)
      && TrackRefers(after, after.tracks[|lib.tracks|])
  {
    hide EnterName, EnterOptional, EnterAlbum, EnterKey, NonEmpty, RefersTo, Intern.Valid;
    SomeName(lib.artists, a.artist);
    var artistId := EnterName(lib.artists, a.artist).1;
    EnterNameKeeps(lib.artists, Some(a.artist));
    EnterAlbumKeeps(lib.albums, a.album, artistId);
    EnterNameKeeps(lib.genres, a.genre);
    EnterNameKeeps(lib.labels, a.recordLabel);
    EnterKeyKeeps(lib.keys, a.key);
    EnterNameKeeps(lib.artworks, artwork);
  }

  // Adding a track keeps every invariant; in particular earlier tracks' references stay
  // right although tables grow.
  lemma WithTrackKeeps(lib: Library, a: Analysis, analyzePath: string, artwork: Option<string>)
    requires ValidLibrary(lib)
    ensures ValidLibrary(WithTrack(lib, a, analyzePath, artwork))
  {
    hide TrackRefers, InternsValid, KeysProper, IdsBounded, EnterName, EnterOptional, EnterAlbum, EnterKey;
    var after := WithTrack(lib, a, analyzePath, artwork);
    WithTrackInterns(lib, a, analyzePath, artwork);
    forall i | 0 <= i < |after.tracks|
      ensures TrackRefers(after, after.tracks[i])
    {
      if i < |lib.tracks| {
        TrackStillRefers(lib, after, lib.tracks[i]);
      }
    }
  }

  lemma TrackStillRefers(lib: Library, after: Library, t: TrackInfo)
    requires TrackRefers(lib, t)
    requires after.artists.Extends(lib.artists) && after.albums.Extends(lib.albums) && after.genres.Extends(lib.genres)
    requires after.labels.Extends(lib.labels) && after.keys.Extends(lib.keys) && after.artworks.Extends(lib.artworks)
    ensures TrackRefers(after, t)
  {
    hide RefersTo, NonEmpty;
    StillRefers(lib.artists, after.artists, t.artistId, NonEmpty(Some(t.analysis.artist)));
    StillRefers(lib.albums, after.albums, t.albumId, AlbumOf(t));
    StillRefers(lib.genres, after.genres, t.genreId, NonEmpty(t.analysis.genre));
    StillRefers(lib.labels, after.labels, t.labelId, NonEmpty(t.analysis.recordLabel));
    StillRefers(lib.keys, after.keys, t.keyId, KeyIdOf(t.analysis));
  }

  lemma SomeName(m: Intern<string>, name: string)
    ensures EnterName(m, name) == EnterOptional(m, Some(name))
  {}

  lemma StillRefers<K>(before: Intern<K>, after: Intern<K>, id: nat, key: Option<K>)
    requires RefersTo(before, id, key) && after.Extends(before)
    ensures RefersTo(after, id, key)
  {}

  lemma ApplyKeeps(lib: Library, op: Op)
    requires ValidLibrary(lib)
    ensures ValidLibrary(Apply(lib, op))
  {
    hide ValidLibrary, WithTrack, WithPlaylist;
    match op
    case AddTrack(a, path, artwork) => WithTrackKeeps(lib, a, path, artwork);
    case AddPlaylist(id, parentId, name, trackIds) => WithPlaylistKeeps(lib, id, parentId, name, false, trackIds);
    case AddFolder(id, parentId, name) => WithPlaylistKeeps(lib, id, parentId, name, true, []);
  }

  lemma WithPlaylistKeeps(lib: Library, id: u32, parentId: u32, name: string, isFolder: bool, trackIds: seq<u32>)
    requires ValidLibrary(lib)
    ensures ValidLibrary(WithPlaylist(lib, id, parentId, name, isFolder, trackIds))
  {
    hide Intern.Valid;
    var after := WithPlaylist(lib, id, parentId, name, isFolder, trackIds);
    assert forall i :: 0 <= i < |lib.tracks| && TrackRefers(lib, lib.tracks[i]) ==> TrackRefers(after, lib.tracks[i]);
  }

  // After any sequence of adds.
  lemma {:induction false} RunIsValid(ops: seq<Op>)
    ensures ValidLibrary(Run(ops))
  {
    hide ValidLibrary, Apply;
    if ops == [] {
      EmptyIsValid();
    } else {
      RunIsValid(ops[..|ops| - 1]);
      ApplyKeeps(Run(ops[..|ops| - 1]), ops[|ops| - 1]);
    }
  }

  // The add_track calls among the operations, in order.
  function AddedTracks(ops: seq<Op>): (adds: seq<Op>)
    ensures forall i :: 0 <= i < |adds| ==> adds[i].AddTrack?
  {
    if ops == [] then []
    else AddedTracks(ops[..|ops| - 1]) + if ops[|ops| - 1].AddTrack? then [ops[|ops| - 1]] else []
  }

  // Track i is the one the i-th add_track brought, and its artwork id is that of the path
  // given there, whatever was added since.
  lemma {:induction false} TrackFromAdd(ops: seq<Op>, i: nat)
    requires i < |AddedTracks(ops)|
    ensures |Run(ops).tracks| == |AddedTracks(ops)|
    ensures var t, add := Run(ops).tracks[i], AddedTracks(ops)[i];
      && t.analysis == add.analysis && t.analyzePath == add.analyzePath
      && RefersTo(Run(ops).artworks, t.artworkId, NonEmpty(add.artwork))
  {
    hide Apply, RefersTo, NonEmpty, ValidLibrary;
    var init, last := ops[..|ops| - 1], ops[|ops| - 1];
    RunIsValid(init);
    TrackCount(init);
    ArtworkKept(Run(init), last);
    if i < |AddedTracks(init)| {
      TrackFromAdd(init, i);
      StillRefers(Run(init).artworks, Run(ops).artworks, Run(init).tracks[i].artworkId,
        NonEmpty(AddedTracks(init)[i].artwork));
    }
  }

  lemma {:induction false} TrackCount(ops: seq<Op>)
    ensures |Run(ops).tracks| == |AddedTracks(ops)|
  {
    hide EnterName, EnterOptional, EnterAlbum, EnterKey;
    if ops != [] { TrackCount(ops[..|ops| - 1]); }
  }

  lemma ArtworkKept(lib: Library, op: Op)
    requires ValidLibrary(lib)
    ensures Apply(lib, op).artworks.Extends(lib.artworks) && lib.tracks <= Apply(lib, op).tracks
    ensures op.AddTrack? ==>
      && |Apply(lib, op).tracks| == |lib.tracks| + 1
      && var t := Apply(lib, op).tracks[|lib.tracks|];
         && t.analysis == op.analysis && t.analyzePath == op.analyzePath
         && RefersTo(Apply(lib, op).artworks, t.artworkId, NonEmpty(op.artwork))
    ensures !op.AddTrack? ==> Apply(lib, op).tracks == lib.tracks
  {
    hide EnterName, EnterOptional, EnterAlbum, EnterKey, NonEmpty, RefersTo, Intern.Valid, TrackRefers;
    if op.AddTrack? { EnterNameKeeps(lib.artworks, op.artwork); }
  }

  // The playlists and folders among the operations, in order.
  function AddedPlaylists(ops: seq<Op>): (adds: seq<Op>)
    ensures forall i :: 0 <= i < |adds| ==> !adds[i].AddTrack?
  {
    if ops == [] then []
    else AddedPlaylists(ops[..|ops| - 1]) + if ops[|ops| - 1].AddTrack? then [] else [ops[|ops| - 1]]
  }

  // Playlist i is the one the i-th of those operations brought, with its place in the order.
  lemma {:induction false} PlaylistFromAdd(ops: seq<Op>, i: nat)
    requires i < |AddedPlaylists(ops)|
    ensures |Run(ops).playlists| == |AddedPlaylists(ops)|
    ensures var p, add := Run(ops).playlists[i], AddedPlaylists(ops)[i];
      && p.id == add.id && p.parentId == add.parentId && p.name == add.name && p.sortOrder == i
      && p.isFolder == add.AddFolder? && p.trackIds == if add.AddFolder? then [] else add.trackIds
  {
    hide WithTrack;
    var init, last := ops[..|ops| - 1], ops[|ops| - 1];
    PlaylistCount(init);
    if last.AddTrack? { TracksLeavePlaylists(Run(init), last); }
    if i < |AddedPlaylists(init)| {
      PlaylistFromAdd(init, i);
    }
  }

  lemma {:induction false} PlaylistCount(ops: seq<Op>)
    ensures |Run(ops).playlists| == |AddedPlaylists(ops)|
  {
    hide WithTrack;
    if ops != [] {
      PlaylistCount(ops[..|ops| - 1]);
      if ops[|ops| - 1].AddTrack? { TracksLeavePlaylists(Run(ops[..|ops| - 1]), ops[|ops| - 1]); }
    }
  }

  lemma TracksLeavePlaylists(lib: Library, op: Op)
    requires op.AddTrack?
    ensures Apply(lib, op).playlists == lib.playlists
  {
    hide EnterName, EnterOptional, EnterAlbum, EnterKey;
  }

  lemma EmptyIsValid()
    ensures ValidLibrary(EMPTY_LIBRARY)
  {}

  // ---- Rows of the tables -----------------------------------------------------------------

  function TrackRows(tracks: seq<TrackInfo>): (rows: seq<Row>)
    ensures |rows| == |tracks|
  {
    seq(|tracks|, i requires 0 <= i < |tracks| => TrackRow(tracks[i]))
  }

  // Row i has id i + 1.
  function NamedRows(names: seq<string>): (rows: seq<Row>)
    ensures |rows| == |names|
  {
    seq(|names|, i requires 0 <= i < |names| => NamedRow(i + 1, names[i]))
  }

  function ArtistRows(names: seq<string>): (rows: seq<Row>)
    ensures |rows| == |names|
  {
    seq(|names|, i requires 0 <= i < |names| => ArtistRow(i + 1, names[i]))
  }

  function AlbumRows(albums: seq<AlbumKey>): (rows: seq<Row>)
    ensures |rows| == |albums|
  {
    seq(|albums|, i requires 0 <= i < |albums| => AlbumRow(i + 1, albums[i].1, albums[i].0))
  }

  function NameOfKeyId(id: nat): string {
    KeyName(FromRekordboxId(id))
  }

  function KeyRows(names: seq<string>): (rows: seq<Row>)
    ensures |rows| == |names|
  {
    seq(|names|, i requires 0 <= i < |names| => KeyRow(i + 1, names[i]))
  }

  function KeyNames(ids: seq<nat>): (names: seq<string>)
    ensures |names| == |ids| && forall i :: 0 <= i < |names| ==> names[i] == NameOfKeyId(ids[i])
  {
    seq(|ids|, i requires 0 <= i < |ids| => NameOfKeyId(ids[i]))
  }

  function PlaylistRows(playlists: seq<PlaylistInfo>): (rows: seq<Row>)
    ensures |rows| == |playlists|
  {
    seq(|playlists|, i requires 0 <= i < |playlists| => PlaylistTreeRow(playlists[i]))
  }

  // (position, track, playlist) of every entry, playlist by playlist; folders have none.
  function EntriesOf(p: PlaylistInfo): (r: seq<(nat, nat, nat)>)
    ensures |r| == if p.isFolder then 0 else |p.trackIds|
    ensures forall i :: 0 <= i < |r| ==> r[i] == (i + 1, p.trackIds[i] as nat, p.id as nat)
  {
    if p.isFolder then []
    else seq(|p.trackIds|, i requires 0 <= i < |p.trackIds| => (i + 1, p.trackIds[i] as nat, p.id as nat))
  }

  function Entries(playlists: seq<PlaylistInfo>): seq<(nat, nat, nat)> {
    if playlists == [] then [] else EntriesOf(playlists[0]) + Entries(playlists[1..])
  }

  // How many entries the first n playlists have.
  function EntriesBefore(playlists: seq<PlaylistInfo>, n: nat): nat
    requires n <= |playlists|
  {
    if n == 0 then 0
    else EntriesBefore(playlists, n - 1) + if playlists[n - 1].isFolder then 0 else |playlists[n - 1].trackIds|
  }

  // The j-th track of playlist p has its entry behind those of the playlists before it, and
  // there are no other entries.
  lemma {:induction false} EntryPlace(playlists: seq<PlaylistInfo>, p: nat, j: nat)
    requires p < |playlists| && !playlists[p].isFolder && j < |playlists[p].trackIds|
    ensures EntriesBefore(playlists, p) + j < |Entries(playlists)| == EntriesBefore(playlists, |playlists|)
    ensures Entries(playlists)[EntriesBefore(playlists, p) + j]
      == (j + 1, playlists[p].trackIds[j] as nat, playlists[p].id as nat)
  {
    hide EntriesOf;
    EntryTotal(playlists, |playlists|);
    EntryTotal(playlists, p);
    assert playlists[..|playlists|] == playlists;
    EntriesAround(playlists, p);
  }

  lemma EntriesAround(playlists: seq<PlaylistInfo>, p: nat)
    requires p < |playlists|
    ensures Entries(playlists)
      == Entries(playlists[..p]) + (EntriesOf(playlists[p]) + Entries(playlists[p + 1..]))
  {
    hide EntriesOf;
    EntriesSplit(playlists, p);
    assert playlists[p..][0] == playlists[p] && playlists[p..][1..] == playlists[p + 1..];
  }

  lemma {:induction false} EntryTotal(playlists: seq<PlaylistInfo>, n: nat)
    requires n <= |playlists|
    ensures |Entries(playlists[..n])| == EntriesBefore(playlists, n)
  {
    hide EntriesOf;
    if n > 0 {
      EntryTotal(playlists, n - 1);
      EntriesSplit(playlists[..n], n - 1);
      assert playlists[..n][..n - 1] == playlists[..n - 1] && playlists[..n][n - 1..] == [playlists[n - 1]];
      assert [playlists[n - 1]][1..] == [];
    }
  }

  lemma {:induction false} EntriesSplit(playlists: seq<PlaylistInfo>, n: nat)
    requires n <= |playlists|
    ensures Entries(playlists) == Entries(playlists[..n]) + Entries(playlists[n..])
  {
    hide EntriesOf;
    if n == 0 {
      assert playlists[..0] == [] && playlists[0..] == playlists;
    } else {
      EntriesSplit(playlists[1..], n - 1);
      assert playlists[..n][1..] == playlists[1..][..n - 1] && playlists[1..][n - 1..] == playlists[n..];
    }
  }

  function EntryRows(entries: seq<(nat, nat, nat)>): (rows: seq<Row>)
    ensures |rows| == |entries|
  {
    seq(|entries|, i requires 0 <= i < |entries| => PlaylistEntryRow(entries[i].0, entries[i].1, entries[i].2))
  }

  // ---- Tables with fixed rows ----------------------------------------------------------------

  const COLOR_NAMES: seq<string> := ["Pink", "Red", "Orange", "Yellow", "Green", "Aqua", "Blue", "Purple"]

  function ColorRow(id: byte, name: string): Row {
    Zeros(4) + [id, id] + Zeros(2) + Encoded(name)
  }

  function ColorRows(): (rows: seq<Row>)
    ensures |rows| == 8
  {
    seq(8, i requires 0 <= i < 8 => ColorRow(i + 1, COLOR_NAMES[i]))
  }

  // Column ids, subtypes and names.
  const COLUMNS: seq<(nat, nat, string)> := [
    (1, 128, "GENRE"), (2, 129, "ARTIST"), (3, 130, "ALBUM"), (4, 131, "TRACK"), (5, 133, "BPM"), (6, 134, "RATING"),
    (7, 135, "YEAR"), (8, 136, "REMIXER"), (9, 137, "LABEL"), (10, 138, "ORIGINAL ARTIST"), (11, 139, "KEY"),
    (12, 141, "CUE"), (13, 142, "COLOR"), (14, 146, "TIME"), (15, 147, "BITRATE"), (16, 148, "FILE NAME"),
    (17, 132, "PLAYLIST"), (18, 152, "HOT CUE BANK"), (19, 149, "HISTORY"), (20, 145, "SEARCH"), (21, 150, "COMMENTS"),
    (22, 140, "DATE ADDED"), (23, 151, "DJ PLAY COUNT"), (24, 144, "FOLDER"), (25, 161, "DEFAULT"),
    (26, 162, "ALPHABET"), (27, 170, "MATCHING")]

  // Id, subtype and the name between two marker units, padded with zeros to four bytes.
  function ColumnRow(id: nat, subtype: nat, name: string): (row: Row)
    ensures |row| <= 16 + 4 * |name|
  {
    var units := [0xFFFA] + Utf16(name) + [0xFFFB];
    LE16(id) + LE16(subtype) + LongHeader(FLAG_UTF16LE, 4 + 2 * |units|) + UnitBytes(units) + Zeros(2 * |units| % 4)
  }

  function ColumnRows(): (rows: seq<Row>)
    ensures |rows| == |COLUMNS|
  {
    seq(|COLUMNS|, i requires 0 <= i < |COLUMNS| => ColumnRow(COLUMNS[i].0, COLUMNS[i].1, COLUMNS[i].2))
  }

  type Quad = (nat, nat, nat, nat)

  const UNKNOWN17: seq<Quad> := [
    (0x1, 0x1, 0x163, 0x0), (0x5, 0x6, 0x105, 0x0), (0x6, 0x7, 0x163, 0x0), (0x7, 0x8, 0x163, 0x0),
    (0x8, 0x9, 0x163, 0x0), (0x9, 0xa, 0x163, 0x0), (0xa, 0xb, 0x163, 0x0), (0xd, 0xf, 0x163, 0x0),
    (0xe, 0x13, 0x104, 0x0), (0xf, 0x14, 0x106, 0x0), (0x10, 0x15, 0x163, 0x0), (0x12, 0x17, 0x163, 0x0),
    (0x2, 0x2, 0x2, 0x1), (0x3, 0x3, 0x3, 0x2), (0x4, 0x4, 0x1, 0x3), (0xb, 0xc, 0x63, 0x4),
    (0x11, 0x5, 0x63, 0x5), (0x13, 0x16, 0x63, 0x6), (0x14, 0x12, 0x63, 0x7), (0x1b, 0x1a, 0x263, 0x8),
    (0x18, 0x11, 0x63, 0x9), (0x16, 0x1b, 0x63, 0xa)]

  const UNKNOWN18: seq<Quad> := [
    (1, 6, 1, 0), (21, 7, 1, 0), (14, 8, 1, 0), (8, 9, 1, 0),
    (9, 10, 1, 0), (10, 11, 1, 0), (15, 13, 1, 0), (13, 15, 1, 0),
    (23, 16, 1, 0), (22, 17, 1, 0), (25, 0, 256, 0), (26, 1, 512, 0), (2, 2, 768, 0), (3, 3, 1024, 0), (5, 4, 1280, 0),
    (6, 5, 1536, 0), (11, 12, 1792, 0)]

  function QuadRow(q: Quad): (row: Row)
    ensures |row| == 8
  {
    LE16(q.0) + LE16(q.1) + LE16(q.2) + LE16(q.3)
  }

  function QuadRows(quads: seq<Quad>): (rows: seq<Row>)
    ensures |rows| == |quads| && forall i :: 0 <= i < |rows| ==> rows[i] == QuadRow(quads[i])
  {
    seq(|quads|, i requires 0 <= i < |quads| => QuadRow(quads[i]))
  }

  const HISTORY_DATE := "2025-01-01"
  const HISTORY_NUMBER := "1000"

  function HistoryRow(date: bytes, number: bytes): (row: Row)
    ensures |row| == 26 + |date| + |number|
  {
    [0x80, 0x02] + Zeros(10) + [0x17] + date + [0x19, 0x1E, 0x0B] + number + [0x03] + Zeros(9)
  }

  function HistoryDate(): (b: bytes)
    ensures |b| == 10
  {
    AsciiBytes(HISTORY_DATE)
  }

  function HistoryNumber(): (b: bytes)
    ensures |b| == 4
  {
    AsciiBytes(HISTORY_NUMBER)
  }

  function HistoryRows(): (rows: seq<Row>)
    ensures |rows| == 1 && |rows[0]| == 40
  {
    [HistoryRow(HistoryDate(), HistoryNumber())]
  }

  // Colours have their number twice, then their name.
  lemma ColorRowReads(i: nat, suffix: bytes)
    requires i < 8
    ensures var b := ColorRows()[i] + suffix;
      && |b| >= 8 && b[0..4] == Zeros(4) && b[4] == b[5] == i + 1 && b[6] == b[7] == 0
      && Decode(b[8..]) == Some((COLOR_NAMES[i], EncodedLength(COLOR_NAMES[i])))
  {
    hide Encoded, Decode, EncodedLength;
    var name := COLOR_NAMES[i];
    ShortNameLength(name);
    EncodingDecodes(name, suffix);
    assert (ColorRows()[i] + suffix)[8..] == Encoded(name) + suffix;
  }

  // Columns have number, subtype and the name in UTF-16 between two marker units, and take
  // a multiple of four bytes.
  lemma ColumnRowReads(i: nat)
    requires i < |COLUMNS|
    ensures var b, name := ColumnRows()[i], COLUMNS[i].2;
      && |b| % 4 == 0 && |b| >= 12 + 2 * |Utf16(name)|
      && b[0..2] == LE16(COLUMNS[i].0) && b[2..4] == LE16(COLUMNS[i].1)
      && b[4..8] == [0x90] + LE16(8 + 2 * |Utf16(name)|) + [0] && b[8..10] == [0xFA, 0xFF]
      && b[10..10 + 2 * |Utf16(name)|] == UnitBytes(Utf16(name))
      && b[10 + 2 * |Utf16(name)|..12 + 2 * |Utf16(name)|] == [0xFB, 0xFF]
  {
    hide LE16, Utf16, UnitBytes;
    var units, name := [0xFFFA] + Utf16(COLUMNS[i].2) + [0xFFFB], Utf16(COLUMNS[i].2);
    MarkedUnits(name);
    ColumnLength(COLUMNS[i].0, COLUMNS[i].1, COLUMNS[i].2);
    var b := ColumnRows()[i];
    assert b[8..8 + 2 * |units|] == UnitBytes(units);
    SubSlice(b, 8, 8 + 2 * |units|, 0, 2);
    SubSlice(b, 8, 8 + 2 * |units|, 2, 2 + 2 * |name|);
    SubSlice(b, 8, 8 + 2 * |units|, 2 + 2 * |name|, 4 + 2 * |name|);
  }

  lemma ColumnLength(id: nat, subtype: nat, name: string)
    ensures |ColumnRow(id, subtype, name)| % 4 == 0
    ensures LongHeader(FLAG_UTF16LE, 8 + 2 * |Utf16(name)|) == [0x90] + LE16(8 + 2 * |Utf16(name)|) + [0]
  {
    hide Utf16, UnitBytes;
    EvenPadding(2 + |Utf16(name)|);
  }

  lemma EvenPadding(n: nat)
    ensures (8 + 2 * n + 2 * n % 4) % 4 == 0
  {
    var q, r := n / 2, n % 2;
    assert 2 * n == 4 * q + 2 * r && 2 * n % 4 == 2 * r;
    assert 8 + 2 * n + 2 * n % 4 == 4 * (2 + q + r);
  }

  lemma MarkedUnits(name: seq<nat>)
    ensures var b := UnitBytes([0xFFFA] + name + [0xFFFB]);
      && |b| == 4 + 2 * |name| && b[0..2] == [0xFA, 0xFF] && b[2..2 + 2 * |name|] == UnitBytes(name)
      && b[2 + 2 * |name|..4 + 2 * |name|] == [0xFB, 0xFF]
  {
    hide LE16, UnitBytes;
    UnitBytesCons(0xFFFA, name + [0xFFFB]);
    UnitBytesSnoc(name, 0xFFFB);
    MarkerBytes();
    assert [0xFFFA] + name + [0xFFFB] == [0xFFFA] + (name + [0xFFFB]);
    var b := LE16(0xFFFA) + (UnitBytes(name) + LE16(0xFFFB));
    assert b[2 + 2 * |name|..4 + 2 * |name|] == LE16(0xFFFB);
  }

  lemma UnitBytesCons(first: nat, rest: seq<nat>)
    ensures UnitBytes([first] + rest) == LE16(first) + UnitBytes(rest)
  {
    assert ([first] + rest)[1..] == rest;
  }

  lemma MarkerBytes()
    ensures LE16(0xFFFA) == [0xFA, 0xFF] && LE16(0xFFFB) == [0xFB, 0xFF]
  {}

  lemma {:induction false} UnitBytesSnoc(units: seq<nat>, last: nat)
    ensures UnitBytes(units + [last]) == UnitBytes(units) + LE16(last)
  {
    hide LE16;
    if units == [] {
      assert units + [last] == [last] && [last][1..] == [];
    } else {
      assert (units + [last])[1..] == units[1..] + [last];
      UnitBytesSnoc(units[1..], last);
    }
  }

  // The rows of the two unnamed tables are four half words.
  lemma QuadRowReads(quads: seq<Quad>, i: nat, suffix: bytes)
    requires i < |quads| && quads[i].0 < U16_LIMIT && quads[i].1 < U16_LIMIT
    requires quads[i].2 < U16_LIMIT && quads[i].3 < U16_LIMIT
    ensures var b := QuadRows(quads)[i] + suffix;
      |b| >= 8 && (Get16(b, 0), Get16(b, 2), Get16(b, 4), Get16(b, 6)) == quads[i]
  {
    hide LE16, Get16;
    var b, q := QuadRows(quads)[i] + suffix, quads[i];
    assert b[0..2] == LE16(q.0) && b[2..4] == LE16(q.1) && b[4..6] == LE16(q.2) && b[6..8] == LE16(q.3);
    ReadLE16(b, 0, q.0);
    ReadLE16(b, 2, q.1);
    ReadLE16(b, 4, q.2);
    ReadLE16(b, 6, q.3);
  }

  // The history row holds a date and a number in plain text.
  lemma HistoryRowReads()
    ensures var b := HistoryRows()[0];
      && |b| == 40 && b[0..2] == [0x80, 0x02] && b[12] == 0x17 && b[23..26] == [0x19, 0x1E, 0x0B] && b[30] == 3
      && DecodeAscii(b[13..23]) == Some("2025-01-01") && DecodeAscii(b[26..30]) == Some("1000")
      && b[2..12] == Zeros(10) && b[31..40] == Zeros(9)
  {
    hide AsciiBytes, DecodeAscii;
    AsciiDecodes(HISTORY_DATE);
    AsciiDecodes(HISTORY_NUMBER);
    var b := HistoryRows()[0];
    assert b[13..23] == HistoryDate() && b[26..30] == HistoryNumber();
  }

  // The source writes these tables without checking for a full page. That is right: as
  // few and short rows as these all fit on one page.
  lemma {:induction false} FewRowsFit(rows: seq<Row>)
    requires |rows| <= 30 && forall i :: 0 <= i < |rows| ==> |rows[i]| <= 80
    ensures Written(rows) && HeapEnd(rows) <= HEAP_START + 83 * |rows|
  {
    if rows != [] {
      hide Padding;
      var before := rows[..|rows| - 1];
      FewRowsFit(before);
      assert HeapEnd(before) + |rows[|rows| - 1]| <= 40 + 83 * 29 + 80;
      assert before + [rows[|rows| - 1]] == rows;
      HeapSnoc(before, rows[|rows| - 1]);
    }
  }

  lemma {:induction false} FewRowsPack(current: seq<Row>, rest: seq<Row>)
    requires |current + rest| <= 30 && forall i :: 0 <= i < |current + rest| ==> |(current + rest)[i]| <= 80
    ensures Pack(current, rest) == [current + rest]
    decreases rest
  {
    hide Heap, Written;
    if rest == [] {
      assert current + rest == current;
    } else {
      assert current == (current + rest)[..|current|];
      forall i | 0 <= i < |current|
        ensures |current[i]| <= 80
      {
        assert (current + rest)[i] == current[i];
      }
      FewRowsFit(current);
      assert (current + rest)[|current|] == rest[0];
      assert current + [rest[0]] + rest[1..] == current + rest;
      FewRowsPack(current + [rest[0]], rest[1..]);
    }
  }

  predicate OnePage(rows: seq<Row>) {
    DataGroups(rows) == [rows] && AllFit(rows)
  }

  lemma FixedTablesTakeOnePage()
    ensures OnePage(ColorRows()) && OnePage(ColumnRows()) && OnePage(QuadRows(UNKNOWN17))
    ensures OnePage(QuadRows(UNKNOWN18)) && OnePage(HistoryRows())
  {
    hide OnePage, ColorRows, ColumnRows, QuadRows, HistoryRows;
    QuadsTakeOnePage(UNKNOWN17);
    QuadsTakeOnePage(UNKNOWN18);
    SmallTable(HistoryRows());
    ColorsAreShort();
    SmallTable(ColorRows());
    ColumnsAreShort();
    SmallTable(ColumnRows());
  }

  lemma QuadsTakeOnePage(quads: seq<Quad>)
    requires 0 < |quads| <= 30
    ensures OnePage(QuadRows(quads))
  {
    hide OnePage, QuadRow;
    SmallTable(QuadRows(quads));
  }

  lemma ColorsAreShort()
    ensures forall i :: 0 <= i < 8 ==> |ColorRows()[i]| <= 80
  {
    hide Encoded;
    forall i | 0 <= i < 8
      ensures |ColorRows()[i]| <= 80
    {
      assert |COLOR_NAMES[i]| <= 10;
      ShortNameLength(COLOR_NAMES[i]);
      assert ColorRows()[i] == ColorRow(i + 1, COLOR_NAMES[i]);
    }
  }

  lemma ColumnsAreShort()
    ensures forall i :: 0 <= i < |COLUMNS| ==> |ColumnRows()[i]| <= 80
  {
    hide ColumnRow;
    forall i | 0 <= i < |COLUMNS|
      ensures |ColumnRows()[i]| <= 80
    {
      assert |COLUMNS[i].2| <= 16;
      assert ColumnRows()[i] == ColumnRow(COLUMNS[i].0, COLUMNS[i].1, COLUMNS[i].2);
    }
  }

  lemma ShortNameLength(name: string)
    requires |name| <= 10
    ensures |Encoded(name)| <= 44
  {}

  lemma SmallTable(rows: seq<Row>)
    requires rows != [] && |rows| <= 30 && forall i :: 0 <= i < |rows| ==> |rows[i]| <= 80
    ensures OnePage(rows)
  {
    assert [] + rows == rows;
    FewRowsPack([], rows);
  }

  // The 20 tables, by table type.
  ghost function TablesOf(lib: Library): (tables: Tables)
    requires InternsValid(lib)
    ensures |tables| == TABLE_COUNT
  {
    [TrackRows(lib.tracks),
     NamedRows(lib.genres.Order()),
     ArtistRows(lib.artists.Order()),
     AlbumRows(lib.albums.Order()),
     NamedRows(lib.labels.Order()),
     KeyRows(KeyNames(lib.keys.Order())),
     ColorRows(),
     PlaylistRows(lib.playlists),
     EntryRows(Entries(lib.playlists)),
     [], [], [], [],
     NamedRows(lib.artworks.Order()),
     [], [],
     ColumnRows(), QuadRows(UNKNOWN17), QuadRows(UNKNOWN18), HistoryRows()]
  }
}
