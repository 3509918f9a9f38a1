// The rows of crates/bvault-core/src/pdb.rs, and for every kind of row a decoder that
// needs only the bytes from the row's start on.
module RowCodec {
  import opened Wrappers
  import opened Bytes
  import opened Page
  import opened DeviceString
  import opened Tracks

  // A string of this length is never affected by the 16-bit length field.
  predicate Short(s: string) {
    EncodedLength(s) < U16_LIMIT
  }

  lemma ReadAfter32(x: nat, rest: bytes)
    requires x < U32_LIMIT
    ensures Get32(LE32(x) + rest, 0) == x && (LE32(x) + rest)[4..] == rest
  {
    hide LE32, Get32;
    assert (LE32(x) + rest)[0..4] == LE32(x);
    ReadLE32(LE32(x) + rest, 0, x);
  }

  lemma AppendAssoc(a: bytes, b: bytes, c: bytes)
    ensures a + b + c == a + (b + c)
  {}

  // ---- Genres, labels, artwork: id and name -----------------------------------------

  function NamedRow(id: nat, name: string): Row {
    LE32(id) + Encoded(name)
  }

  function DecodeNamed(tail: bytes): Option<(nat, string)> {
    if |tail| < 4 then None
    else match Decode(tail[4..])
      case None => None
      case Some((name, _)) => Some((Get32(tail, 0), name))
  }

  lemma NamedDecodes(id: nat, name: string, suffix: bytes)
    requires id < U32_LIMIT && Short(name)
    ensures DecodeNamed(NamedRow(id, name) + suffix) == Some((id, name))
  {
    hide LE32, Get32, Encoded, Decode;
    AppendAssoc(LE32(id), Encoded(name), suffix);
    ReadAfter32(id, Encoded(name) + suffix);
    EncodingDecodes(name, suffix);
  }

  // ---- Keys: the id twice, then the name ------------------------------------------------

  function KeyRow(id: nat, name: string): Row {
    LE32(id) + NamedRow(id, name)
  }

  function DecodeKey(tail: bytes): Option<(nat, string)> {
    if |tail| < 4 then None
    else match DecodeNamed(tail[4..])
      case None => None
      case Some((id, name)) => if id == Get32(tail, 0) then Some((id, name)) else None
  }

  lemma KeyDecodes(id: nat, name: string, suffix: bytes)
    requires id < U32_LIMIT && Short(name)
    ensures DecodeKey(KeyRow(id, name) + suffix) == Some((id, name))
  {
    hide LE32, Get32, NamedRow, DecodeNamed;
    AppendAssoc(LE32(id), NamedRow(id, name), suffix);
    ReadAfter32(id, NamedRow(id, name) + suffix);
    NamedDecodes(id, name, suffix);
  }

  // ---- Artists: near or far name offset -------------------------------------------------

  const NEAR_LIMIT: nat := 200

  function ArtistHead(id: nat, near: bool): (r: bytes)
    ensures |r| == if near then 10 else 12
  {
    LE16(if near then 0x60 else 0x64) + LE16(0) + LE32(id) + [0x03] + if near then [10] else [0] + LE16(12)
  }

  function ArtistRow(id: nat, name: string): Row {
    ArtistHead(id, EncodedLength(name) <= NEAR_LIMIT) + Encoded(name)
  }

  // The string whose offset is a byte at `near` or, in the far subtype, a word at `far`.
  function NameAt(tail: bytes, near: nat, farSubtype: nat): Option<string> {
    if |tail| <= near || near == 0 then None
    else
      var far := Get16(tail, 0) == farSubtype;
      var offset := if !far then tail[near] as nat else if |tail| < near + 3 then |tail| + 1 else Get16(tail, near + 1);
      if offset > |tail| then None
      else match Decode(tail[offset..])
        case None => None
        case Some((name, _)) => Some(name)
  }

  function DecodeArtist(tail: bytes): Option<(nat, string)> {
    if |tail| < 8 then None
    else match NameAt(tail, 9, 0x64)
      case None => None
      case Some(name) => Some((Get32(tail, 4), name))
  }

  lemma ArtistHeadReads(id: nat, near: bool, rest: bytes)
    requires id < U32_LIMIT
    ensures var b := ArtistHead(id, near) + rest;
      && Get32(b, 4) == id && Get16(b, 0) == (if near then 0x60 else 0x64)
      && (near ==> b[9] == 10) && (!near ==> Get16(b, 10) == 12)
  {
    hide LE32, Get32;
    var h := ArtistHead(id, near);
    var b := h + rest;
    assert b[4..8] == h[4..8] == LE32(id);
    ReadLE32(b, 4, id);
    assert b[0] == h[0] && b[1] == h[1];
    if near { assert b[9] == h[9]; } else { assert b[10] == h[10] && b[11] == h[11]; }
  }

  // The near format is for names of up to 200 encoded bytes, the far one for longer ones.
  lemma NameFormats(id: nat, artistId: nat, name: string)
    ensures var near, artist, album := |Encoded(name)| <= 200, ArtistRow(id, name), AlbumRow(id, artistId, name);
      && |artist| == |Encoded(name)| + (if near then 10 else 12)
      && |album| == |Encoded(name)| + (if near then 22 else 24)
      && artist[0] == (if near then 0x60 else 0x64) && album[0] == (if near then 0x80 else 0x84)
      && artist[1] == album[1] == 0
  {
    hide LE32, Encoded, EncodedLength;
  }

  // The parts of a head that are the same for all artists.
  lemma ArtistHeadFixed(id: nat, near: bool)
    ensures var h := ArtistHead(id, near); h[2] == h[3] == 0 && h[8] == 3 && (!near ==> h[9] == 0)
  {
    hide LE32;
  }

  lemma EncodedNotEmpty(name: string)
    ensures EncodedLength(name) >= 1
    ensures EncodedLength(name) > NEAR_LIMIT ==> name != ""
  {}

  lemma ArtistDecodes(id: nat, name: string, suffix: bytes)
    requires id < U32_LIMIT && Short(name)
    ensures DecodeArtist(ArtistRow(id, name) + suffix) == Some((id, name))
  {
    hide LE16, LE32, Get16, Get32, Encoded, Decode, ArtistHead, EncodedLength;
    var near := EncodedLength(name) <= NEAR_LIMIT;
    var head := ArtistHead(id, near);
    AppendAssoc(head, Encoded(name), suffix);
    ArtistHeadReads(id, near, Encoded(name) + suffix);
    EncodingDecodes(name, suffix);
    EncodedNotEmpty(name);
    assert (head + (Encoded(name) + suffix))[|head|..] == Encoded(name) + suffix;
  }

  // ---- Albums -------------------------------------------------------------------------

  function AlbumHead(id: nat, artistId: nat, near: bool): (r: bytes)
    ensures |r| == if near then 22 else 24
  {
    LE16(if near then 0x80 else 0x84) + LE16(0) + LE32(0) + LE32(artistId) + LE32(id) + LE32(0) + [0x03]
    + if near then [22] else [0] + LE16(24)
  }

  function AlbumRow(id: nat, artistId: nat, name: string): Row {
    AlbumHead(id, artistId, EncodedLength(name) <= NEAR_LIMIT) + Encoded(name)
  }

  function DecodeAlbum(tail: bytes): Option<(nat, nat, string)> {
    if |tail| < 20 then None
    else match NameAt(tail, 21, 0x84)
      case None => None
      case Some(name) => Some((Get32(tail, 12), Get32(tail, 8), name))
  }

  lemma AlbumHeadReads(id: nat, artistId: nat, near: bool, rest: bytes)
    requires id < U32_LIMIT && artistId < U32_LIMIT
    ensures var b := AlbumHead(id, artistId, near) + rest;
      && Get32(b, 8) == artistId && Get32(b, 12) == id && Get16(b, 0) == (if near then 0x80 else 0x84)
      && (near ==> b[21] == 22) && (!near ==> Get16(b, 22) == 24)
  {
    hide LE32, Get32;
    var h := AlbumHead(id, artistId, near);
    var b := h + rest;
    assert b[8..12] == h[8..12] == LE32(artistId);
    assert b[12..16] == h[12..16] == LE32(id);
    ReadLE32(b, 8, artistId);
    ReadLE32(b, 12, id);
    assert b[0] == h[0] && b[1] == h[1];
    if near { assert b[21] == h[21]; } else { assert b[22] == h[22] && b[23] == h[23]; }
  }

  lemma AlbumHeadFixed(id: nat, artistId: nat, near: bool)
    ensures var h := AlbumHead(id, artistId, near);
      h[2..8] == Zeros(6) && h[16..20] == Zeros(4) && h[20] == 3 && (!near ==> h[21] == 0)
  {
    hide LE32;
    ZeroWord();
  }

  lemma ZeroWord()
    ensures LE32(0) == [0, 0, 0, 0]
  {}

  lemma AlbumDecodes(id: nat, artistId: nat, name: string, suffix: bytes)
    requires id < U32_LIMIT && artistId < U32_LIMIT && Short(name)
    ensures DecodeAlbum(AlbumRow(id, artistId, name) + suffix) == Some((id, artistId, name))
  {
    hide LE16, LE32, Get16, Get32, Encoded, Decode, AlbumHead, EncodedLength;
    var near := EncodedLength(name) <= NEAR_LIMIT;
    var head := AlbumHead(id, artistId, near);
    AppendAssoc(head, Encoded(name), suffix);
    AlbumHeadReads(id, artistId, near, Encoded(name) + suffix);
    EncodingDecodes(name, suffix);
    EncodedNotEmpty(name);
    assert (head + (Encoded(name) + suffix))[|head|..] == Encoded(name) + suffix;
  }

  // ---- Playlists -----------------------------------------------------------------------

  function PlaylistHead(p: PlaylistInfo): (r: bytes)
    ensures |r| == 20
  {
    LE32(p.parentId) + LE32(0) + LE32(p.sortOrder) + LE32(p.id) + LE32(if p.isFolder then 1 else 0)
  }

  function PlaylistTreeRow(p: PlaylistInfo): Row {
    PlaylistHead(p) + Encoded(p.name)
  }

  // Parent, sort order, id, folder flag and name.
  function DecodePlaylist(tail: bytes): Option<(nat, nat, nat, bool, string)> {
    if |tail| < 20 then None
    else match Decode(tail[20..])
      case None => None
      case Some((name, _)) => Some((Get32(tail, 0), Get32(tail, 8), Get32(tail, 12), Get32(tail, 16) == 1, name))
  }

  lemma PlaylistDecodes(p: PlaylistInfo, suffix: bytes)
    requires p.sortOrder < U32_LIMIT && Short(p.name)
    ensures DecodePlaylist(PlaylistTreeRow(p) + suffix) == Some((p.parentId, p.sortOrder, p.id, p.isFolder, p.name))
  {
    hide LE32, Get32, Encoded, Decode;
    var head, rest := PlaylistHead(p), Encoded(p.name) + suffix;
    var b := head + rest;
    AppendAssoc(head, Encoded(p.name), suffix);
    assert b[0..4] == head[0..4] == LE32(p.parentId);
    assert b[8..12] == head[8..12] == LE32(p.sortOrder);
    assert b[12..16] == head[12..16] == LE32(p.id);
    assert b[16..20] == head[16..20] == LE32(if p.isFolder then 1 else 0);
    ReadLE32(b, 0, p.parentId);
    ReadLE32(b, 8, p.sortOrder);
    ReadLE32(b, 12, p.id);
    ReadLE32(b, 16, if p.isFolder then 1 else 0);
    assert b[20..] == rest;
    EncodingDecodes(p.name, suffix);
  }

  // Position in the playlist from 1, track id, playlist id.
  function PlaylistEntryRow(index: nat, trackId: nat, playlistId: nat): Row {
    LE32(index) + LE32(trackId) + LE32(playlistId)
  }

  function DecodeEntry(tail: bytes): Option<(nat, nat, nat)> {
    if |tail| < 12 then None else Some((Get32(tail, 0), Get32(tail, 4), Get32(tail, 8)))
  }

  lemma EntryDecodes(index: nat, trackId: nat, playlistId: nat, suffix: bytes)
    requires index < U32_LIMIT && trackId < U32_LIMIT && playlistId < U32_LIMIT
    ensures DecodeEntry(PlaylistEntryRow(index, trackId, playlistId) + suffix) == Some((index, trackId, playlistId))
  {
    hide LE32, Get32;
    var b := PlaylistEntryRow(index, trackId, playlistId) + suffix;
    assert b[0..4] == LE32(index) && b[4..8] == LE32(trackId) && b[8..12] == LE32(playlistId);
    ReadLE32(b, 0, index);
    ReadLE32(b, 4, trackId);
    ReadLE32(b, 8, playlistId);
  }

  // ---- Tracks -----------------------------------------------------------------------------

  const TRACK_HEADER_SIZE: nat := 136
  const STRING_COUNT: nat := 21

  // The 21 strings of a track row, in the order of their offsets.
  function TrackStrings(t: TrackInfo): (r: seq<string>)
    ensures |r| == STRING_COUNT
  {
    ["", "", "", "", "", "", "", "", "", "", "",
     match t.analysis.year case Some(y) => Decimal(y) + "-01-01" case None => "",
     "", "",
     "/" + WithoutLeadingSlashes(t.analyzePath),
     "",
     GetOr(t.analysis.comment, ""),
     t.analysis.title,
     "",
     FileName(t.analysis.filePath),
     t.analysis.filePath]
  }

  function TrackFixedA(a: Analysis): (r: bytes)
    ensures |r| == 28
  {
    LE16(0x0024) + LE16(0x20) + LE32(0x000C_0700) + LE32(a.sampleRate) + LE32(0) + LE32(a.fileSize) + LE32(0)
    + LE16(0) + LE16(0)
  }

  function TrackFixedB(t: TrackInfo): (r: bytes)
    ensures |r| == 32
  {
    LE32(t.artworkId) + LE32(t.keyId) + LE32(0) + LE32(t.labelId) + LE32(0) + LE32(t.analysis.bitrate)
    + LE32(GetOr(t.analysis.trackNumber, 0)) + LE32(t.analysis.tempo100)
  }

  function TrackFixedC(t: TrackInfo): (r: bytes)
    ensures |r| == 16
  {
    LE32(t.genreId) + LE32(t.albumId) + LE32(t.artistId) + LE32(t.analysis.id)
  }

  function TrackFixedD(a: Analysis): (r: bytes)
    ensures |r| == 18
  {
    LE16(1) + LE16(0) + LE16(GetOr(a.year, 0)) + LE16(a.bitDepth) + LE16(a.duration) + LE16(41)
    + [0, 0] + LE16(1) + LE16(3)
  }

  function TrackFixed(t: TrackInfo): (r: bytes)
    ensures |r| == 94
  {
    TrackFixedA(t.analysis) + TrackFixedB(t) + TrackFixedC(t) + TrackFixedD(t.analysis)
  }

  function EncodedStrings(strings: seq<string>): (r: seq<bytes>)
    ensures |r| == |strings| && forall j :: 0 <= j < |r| ==> r[j] == Encoded(strings[j])
  {
    seq(|strings|, j requires 0 <= j < |strings| => Encoded(strings[j]))
  }

  // Offset of string j from the start of the row.
  function StringOffset(encoded: seq<bytes>, j: nat): nat
    requires j <= |encoded|
  {
    TRACK_HEADER_SIZE + |Concat(encoded[..j])|
  }

  function OffsetTable(encoded: seq<bytes>, n: nat): (r: bytes)
    requires n <= |encoded|
    ensures |r| == 2 * n
  {
    if n == 0 then [] else OffsetTable(encoded, n - 1) + LE16(StringOffset(encoded, n - 1))
  }

  function TrackRow(t: TrackInfo): Row {
    var encoded := EncodedStrings(TrackStrings(t));
    TrackFixed(t) + OffsetTable(encoded, STRING_COUNT) + Concat(encoded)
  }

  method BuildTrackRow(t: TrackInfo) returns (row: Row)
    ensures row == TrackRow(t)
    ensures |row| < U16_LIMIT && IdsFit(t) ==>
      DecodeTrack(row).Some? && Says(DecodeTrack(row).value, t.analysis, t.analyzePath)
  {
    hide TrackStrings, TrackFixed, Encoded, LE16, OffsetTable, DecodeTrack, Says, IdsFit;
    var strings := TrackStrings(t);
    var encoded: seq<bytes> := [];
    for j := 0 to |strings|
      invariant |encoded| == j && forall k :: 0 <= k < j ==> encoded[k] == Encoded(strings[k])
    {
      var e := EncodeString(strings[j]);
      encoded := encoded + [e];
    }
    assert encoded == EncodedStrings(strings);
    var offsets: bytes := [];
    var current := TRACK_HEADER_SIZE;
    NoOffsets(encoded);
    for j := 0 to |encoded|
      invariant current == StringOffset(encoded, j) && offsets == OffsetTable(encoded, j)
    {
      OffsetStep(encoded, j);
      offsets := offsets + LE16(current);
      current := current + |encoded[j]|;
    }
    row := TrackFixed(t) + offsets;
    for j := 0 to |encoded|
      invariant row == TrackFixed(t) + offsets + Concat(encoded[..j])
    {
      assert encoded[..j + 1] == encoded[..j] + [encoded[j]];
      ConcatSnoc(encoded[..j], encoded[j]);
      AppendAssoc(TrackFixed(t) + offsets, Concat(encoded[..j]), encoded[j]);
      row := row + encoded[j];
    }
    assert encoded[..|encoded|] == encoded;
    BuiltRowSays(t);
  }

  lemma NoOffsets(encoded: seq<bytes>)
    ensures OffsetTable(encoded, 0) == [] && StringOffset(encoded, 0) == TRACK_HEADER_SIZE
  {}

  lemma OffsetStep(encoded: seq<bytes>, j: nat)
    requires j < |encoded|
    ensures OffsetTable(encoded, j + 1) == OffsetTable(encoded, j) + LE16(StringOffset(encoded, j))
    ensures StringOffset(encoded, j + 1) == StringOffset(encoded, j) + |encoded[j]|
  {
    assert encoded[..j + 1] == encoded[..j] + [encoded[j]];
    ConcatSnoc(encoded[..j], encoded[j]);
  }

  // What a track row tells a reader.
  datatype TrackRecord = TrackRecord(
    id: nat, artistId: nat, albumId: nat, genreId: nat, labelId: nat, keyId: nat, artworkId: nat,
    sampleRate: nat, fileSize: nat, bitrate: nat, trackNumber: nat, tempo100: nat,
    year: nat, bitDepth: nat, duration: nat, strings: seq<string>)

  function RecordOf(t: TrackInfo): TrackRecord {
    var a := t.analysis;
    TrackRecord(a.id, t.artistId, t.albumId, t.genreId, t.labelId, t.keyId, t.artworkId,
                a.sampleRate, a.fileSize % U32_LIMIT, a.bitrate, GetOr(a.trackNumber, 0), a.tempo100,
                GetOr(a.year, 0), a.bitDepth, a.duration, TrackStrings(t))
  }

  // The release date of a track: the year in decimal, without leading zeros, and the first
  // of January.
  predicate IsYearDate(s: string, year: nat) {
    && |s| >= 7 && s[|s| - 6..] == "-01-01"
    && AreDigits(s[..|s| - 6]) && NumberOf(s[..|s| - 6]) == year && (s[0] == '0' ==> |s| == 7)
  }

  // Which string is in which of the 21 slots: 11 the release date, 14 the analysis path
  // with one leading slash, 16 the comment, 17 the title, 19 the file's name and 20 its
  // whole path; the others are empty.
  ghost predicate TextsOf(s: seq<string>, a: Analysis, analyzePath: string) {
    && |s| == 21
    && (match a.year case None => s[11] == "" case Some(year) => IsYearDate(s[11], year))
    && s[14] != "" && s[14][0] == '/' && IsTrimmed(s[14][1..], analyzePath)
    && s[16] == (match a.comment case None => "" case Some(comment) => comment)
    && s[17] == a.title
    && '/' !in s[19] && (s[19] == a.filePath || exists front :: a.filePath == front + "/" + s[19])
    && s[20] == a.filePath
    && (forall j :: 0 <= j < 21 && j !in {11, 14, 16, 17, 19, 20} ==> s[j] == "")
  }

  lemma TextsInSlots(t: TrackInfo)
    ensures TextsOf(TrackStrings(t), t.analysis, t.analyzePath)
  {
    hide Decimal, WithoutLeadingSlashes, FileName, IsTrimmed, AreDigits, NumberOf;
    var s, a := TrackStrings(t), t.analysis;
    if a.year.Some? {
      DecimalReads(a.year.value);
      assert s[11][..|s[11]| - 6] == Decimal(a.year.value);
    }
    SlashesAreTrimmed(t.analyzePath);
    assert s[14][1..] == WithoutLeadingSlashes(t.analyzePath);
    var name := FileName(a.filePath);
    if name != a.filePath {
      assert a.filePath == a.filePath[..|a.filePath| - |name| - 1] + "/" + name;
    }
  }

  function StringAt(tail: bytes, j: nat): Option<string>
    requires |tail| >= TRACK_HEADER_SIZE && j < STRING_COUNT
  {
    var offset := Get16(tail, 94 + 2 * j);
    if offset > |tail| then None
    else match Decode(tail[offset..])
      case None => None
      case Some((s, _)) => Some(s)
  }

  function StringsFrom(tail: bytes, j: nat): Option<seq<string>>
    requires |tail| >= TRACK_HEADER_SIZE && j <= STRING_COUNT
    decreases STRING_COUNT - j
  {
    if j == STRING_COUNT then Some([])
    else match StringAt(tail, j)
      case None => None
      case Some(s) =>
        match StringsFrom(tail, j + 1)
        case None => None
        case Some(rest) => Some([s] + rest)
  }

  function DecodeTrack(tail: bytes): Option<TrackRecord> {
    if |tail| < TRACK_HEADER_SIZE then None
    else match StringsFrom(tail, 0)
      case None => None
      case Some(strings) =>
        Some(TrackRecord(Get32(tail, 72), Get32(tail, 68), Get32(tail, 64), Get32(tail, 60), Get32(tail, 40),
                         Get32(tail, 32), Get32(tail, 28), Get32(tail, 8), Get32(tail, 16), Get32(tail, 48),
                         Get32(tail, 52), Get32(tail, 56), Get16(tail, 80), Get16(tail, 82), Get16(tail, 84), strings))
  }

  lemma PartA(a: Analysis)
    ensures TrackFixedA(a)[8..12] == LE32(a.sampleRate) && TrackFixedA(a)[16..20] == LE32(a.fileSize)
  {
    hide LE16, LE32;
  }

  // The fields that are the same for all tracks: the subtype, the width of the string
  // offsets, the bit mask, disc 1, and marker words whose purpose is unknown; no composer,
  // original artist, remixer, play count, colour or rating.
  lemma TrackConstantsRead(t: TrackInfo, b: bytes)
    requires |b| >= 94 && b[..94] == TrackFixed(t)
    ensures Get16(b, 0) == 0x24 && Get16(b, 2) == 0x20 && Get32(b, 4) == 0xC_0700
    ensures Get32(b, 12) == Get32(b, 20) == Get32(b, 24) == Get32(b, 36) == Get32(b, 44) == 0
    ensures Get16(b, 76) == 1 && Get16(b, 78) == 0 && Get16(b, 86) == 41 && b[88] == b[89] == 0
    ensures Get16(b, 90) == 1 && Get16(b, 92) == 3
  {
    hide LE16, LE32, Get16, Get32, TrackFixedA, TrackFixedB, TrackFixedC, TrackFixedD;
    var (pA, pB, pC, pD) := (TrackFixedA(t.analysis), TrackFixedB(t), TrackFixedC(t), TrackFixedD(t.analysis));
    PartsInPlace(b, pA, pB, pC, pD);
    ConstantsA(t.analysis);
    ConstantsB(t);
    ConstantsD(t.analysis);
    Field16(b, 0, pA, 0, 0x24);
    Field16(b, 0, pA, 2, 0x20);
    Field32(b, 0, pA, 4, 0xC_0700);
    Field32(b, 0, pA, 12, 0);
    Field32(b, 0, pA, 20, 0);
    Field32(b, 0, pA, 24, 0);
    Field32(b, 28, pB, 8, 0);
    Field32(b, 28, pB, 16, 0);
    Field16(b, 76, pD, 0, 1);
    Field16(b, 76, pD, 2, 0);
    Field16(b, 76, pD, 10, 41);
    assert b[88] == b[76..94][12] && b[89] == b[76..94][13];
    Field16(b, 76, pD, 14, 1);
    Field16(b, 76, pD, 16, 3);
  }

  lemma ConstantsA(a: Analysis)
    ensures var p := TrackFixedA(a);
      && p[0..2] == LE16(0x24) && p[2..4] == LE16(0x20) && p[4..8] == LE32(0xC_0700) && p[12..16] == LE32(0)
      && p[20..24] == LE32(0) && p[24..28] == LE32(0)
  {
    hide LE32;
    ZeroWord();
    assert LE16(0) == [0, 0];
  }

  lemma ConstantsB(t: TrackInfo)
    ensures TrackFixedB(t)[8..12] == LE32(0) && TrackFixedB(t)[16..20] == LE32(0)
  {
    hide LE32, GetOr;
  }

  lemma ConstantsD(a: Analysis)
    ensures var p := TrackFixedD(a);
      && p[0..2] == LE16(1) && p[2..4] == LE16(0) && p[10..12] == LE16(41) && p[12] == p[13] == 0
      && p[14..16] == LE16(1) && p[16..18] == LE16(3)
  {
    hide LE16, GetOr;
  }

  lemma PartB(t: TrackInfo)
    ensures var p := TrackFixedB(t);
      && p[0..4] == LE32(t.artworkId) && p[4..8] == LE32(t.keyId) && p[12..16] == LE32(t.labelId)
      && p[20..24] == LE32(t.analysis.bitrate) && p[24..28] == LE32(GetOr(t.analysis.trackNumber, 0))
      && p[28..32] == LE32(t.analysis.tempo100)
  {
    hide LE32, GetOr;
  }

  lemma PartC(t: TrackInfo)
    ensures var p := TrackFixedC(t);
      && p[0..4] == LE32(t.genreId) && p[4..8] == LE32(t.albumId) && p[8..12] == LE32(t.artistId) &&
           p[12..16] == LE32(t.analysis.id)
  {
    hide LE32;
  }

  lemma PartD(a: Analysis)
    ensures var p := TrackFixedD(a);
      p[4..6] == LE16(GetOr(a.year, 0)) && p[6..8] == LE16(a.bitDepth) && p[8..10] == LE16(a.duration)
  {
    hide LE16, GetOr;
  }

  // Field at `at` of a part that starts at `from` in b.
  lemma Field32(b: bytes, from: nat, part: bytes, at: nat, x: nat)
    requires from + |part| <= |b| && b[from..from + |part|] == part
    requires at + 4 <= |part| && part[at..at + 4] == LE32(x)
    ensures Get32(b, from + at) == x % U32_LIMIT
  {
    hide LE32;
    SubSlice(b, from, from + |part|, at, at + 4);
    Truncated32(b, from + at, x);
  }

  lemma Truncated32(b: bytes, at: nat, x: nat)
    requires at + 4 <= |b| && b[at..at + 4] == LE32(x)
    ensures Get32(b, at) == x % U32_LIMIT
  {
    hide B0, B1, B2, B3;
    var s := b[at..at + 4];
    assert b[at] == s[0] && b[at + 1] == s[1] && b[at + 2] == s[2] && b[at + 3] == s[3];
    FourBytes(x);
  }

  lemma FourBytes(x: nat)
    ensures B0(x) + 0x100 * B1(x) + 0x1_0000 * B2(x) + 0x100_0000 * B3(x) == x % U32_LIMIT
  {
    var a, b, c := x / 0x100, x / 0x1_0000, x / 0x100_0000;
    var d := x / U32_LIMIT;
    ByteStep1(x);
    ByteStep2(x);
    ByteStep3(x);
    assert x == 0x100 * a + B0(x);
    assert a == 0x100 * b + B1(x) && b == 0x100 * c + B2(x) && c == 0x100 * d + B3(x);
    Remainder(x, d, B0(x) + 0x100 * B1(x) + 0x1_0000 * B2(x) + 0x100_0000 * B3(x));
  }

  lemma ByteStep1(x: nat)
    ensures x / 0x100 == 0x100 * (x / 0x1_0000) + B1(x)
  {}

  lemma ByteStep2(x: nat)
    ensures x / 0x1_0000 == 0x100 * (x / 0x100_0000) + B2(x)
  {}

  lemma ByteStep3(x: nat)
    ensures x / 0x100_0000 == 0x100 * (x / U32_LIMIT) + B3(x)
  {}

  lemma Remainder(x: nat, q: nat, r: nat)
    requires x == U32_LIMIT * q + r && r < U32_LIMIT
    ensures x % U32_LIMIT == r
  {}

  lemma Field16(b: bytes, from: nat, part: bytes, at: nat, x: nat)
    requires from + |part| <= |b| && b[from..from + |part|] == part
    requires at + 2 <= |part| && part[at..at + 2] == LE16(x) && x < U16_LIMIT
    ensures Get16(b, from + at) == x
  {
    hide LE16, Get16;
    SubSlice(b, from, from + |part|, at, at + 2);
    ReadLE16(b, from + at, x);
  }

  // The fixed fields of a track row read back from its first 94 bytes.
  predicate FixedFields(b: bytes, t: TrackInfo)
    requires |b| >= 94
  {
    var a := t.analysis;
    && Get32(b, 8) == a.sampleRate && Get32(b, 16) == a.fileSize % U32_LIMIT
    && Get32(b, 28) == t.artworkId % U32_LIMIT && Get32(b, 32) == t.keyId % U32_LIMIT &&
         Get32(b, 40) == t.labelId % U32_LIMIT
    && Get32(b, 48) == a.bitrate && Get32(b, 52) == GetOr(a.trackNumber, 0) && Get32(b, 56) == a.tempo100
    && Get32(b, 60) == t.genreId % U32_LIMIT && Get32(b, 64) == t.albumId % U32_LIMIT &&
         Get32(b, 68) == t.artistId % U32_LIMIT
    && Get32(b, 72) == a.id
    && Get16(b, 80) == GetOr(a.year, 0) && Get16(b, 82) == a.bitDepth && Get16(b, 84) == a.duration
  }

  lemma FixedReads(b: bytes, t: TrackInfo)
    requires |b| >= 94 && b[..94] == TrackFixed(t)
    ensures FixedFields(b, t)
  {
    hide LE16, LE32, Get16, Get32, GetOr, TrackFixedA, TrackFixedB, TrackFixedC, TrackFixedD;
    var a := t.analysis;
    var (pA, pB, pC, pD) := (TrackFixedA(a), TrackFixedB(t), TrackFixedC(t), TrackFixedD(a));
    PartsInPlace(b, pA, pB, pC, pD);
    PartA(a);
    PartB(t);
    PartC(t);
    PartD(a);
    Field32(b, 0, pA, 8, a.sampleRate);
    Field32(b, 0, pA, 16, a.fileSize);
    Field32(b, 28, pB, 0, t.artworkId);
    Field32(b, 28, pB, 4, t.keyId);
    Field32(b, 28, pB, 12, t.labelId);
    Field32(b, 28, pB, 20, a.bitrate);
    Field32(b, 28, pB, 24, GetOr(a.trackNumber, 0));
    Field32(b, 28, pB, 28, a.tempo100);
    Field32(b, 60, pC, 0, t.genreId);
    Field32(b, 60, pC, 4, t.albumId);
    Field32(b, 60, pC, 8, t.artistId);
    Field32(b, 60, pC, 12, a.id);
    Field16(b, 76, pD, 4, GetOr(a.year, 0));
    Field16(b, 76, pD, 6, a.bitDepth);
    Field16(b, 76, pD, 8, a.duration);
    Small(GetOr(a.trackNumber, 0));
    Small(a.sampleRate);
    Small(a.bitrate);
    Small(a.tempo100);
    Small(a.id);
  }

  lemma Small(x: u32)
    ensures x % U32_LIMIT == x
  {}

  lemma PartsInPlace(b: bytes, pA: bytes, pB: bytes, pC: bytes, pD: bytes)
    requires |pA| == 28 && |pB| == 32 && |pC| == 16 && |pD| == 18
    requires |b| >= 94 && b[..94] == pA + pB + pC + pD
    ensures b[0..28] == pA && b[28..60] == pB && b[60..76] == pC && b[76..94] == pD
  {
    var f := b[..94];
    assert f[0..28] == pA && f[28..60] == pB && f[60..76] == pC && f[76..94] == pD;
    assert b[..94] == b[0..94];
    SubSlice(b, 0, 94, 0, 28);
    SubSlice(b, 0, 94, 28, 60);
    SubSlice(b, 0, 94, 60, 76);
    SubSlice(b, 0, 94, 76, 94);
  }

  lemma {:induction false} OffsetSlot(encoded: seq<bytes>, n: nat, j: nat)
    requires j < n <= |encoded|
    ensures OffsetTable(encoded, n)[2 * j..2 * j + 2] == LE16(StringOffset(encoded, j))
  {
    hide LE16, StringOffset;
    var before := OffsetTable(encoded, n - 1);
    if j < n - 1 {
      OffsetSlot(encoded, n - 1, j);
      assert (before + LE16(StringOffset(encoded, n - 1)))[2 * j..2 * j + 2] == before[2 * j..2 * j + 2];
    }
  }

  // All 21 offsets of a row that fits a page point exactly at their strings.
  lemma StringReads(t: TrackInfo, suffix: bytes, j: nat)
    requires j < STRING_COUNT && |TrackRow(t)| < U16_LIMIT
    ensures StringAt(TrackRow(t) + suffix, j) == Some(TrackStrings(t)[j])
  {
    hide Encoded, Decode, TrackFixed, LE16, Get16, TrackStrings, OffsetTable, Concat, EncodedLength;
    var strings := TrackStrings(t);
    var encoded := EncodedStrings(strings);
    var table, all := OffsetTable(encoded, STRING_COUNT), Concat(encoded);
    var b := TrackRow(t) + suffix;
    ConcatPart(encoded, j);
    var offset := StringOffset(encoded, j);
    OffsetSlot(encoded, STRING_COUNT, j);
    assert b[94..136] == table;
    Field16(b, 94, table, 2 * j, offset);
    var rest := all[offset - TRACK_HEADER_SIZE..];
    StringsTail(TrackFixed(t), table, all, suffix, offset);
    assert encoded[j] <= rest;
    assert b[offset..] == encoded[j] + (rest[|encoded[j]|..] + suffix);
    EncodingDecodes(strings[j], rest[|encoded[j]|..] + suffix);
  }

  lemma StringsTail(fixed: bytes, table: bytes, all: bytes, suffix: bytes, offset: nat)
    requires |fixed| == 94 && |table| == 42 && TRACK_HEADER_SIZE <= offset <= TRACK_HEADER_SIZE + |all|
    ensures (fixed + table + all + suffix)[offset..] == all[offset - TRACK_HEADER_SIZE..] + suffix
  {}

  lemma {:induction false} StringsRead(t: TrackInfo, suffix: bytes, j: nat)
    requires j <= STRING_COUNT && |TrackRow(t)| < U16_LIMIT
    ensures StringsFrom(TrackRow(t) + suffix, j) == Some(TrackStrings(t)[j..])
    decreases STRING_COUNT - j
  {
    hide TrackStrings, StringAt;
    if j < STRING_COUNT {
      StringReads(t, suffix, j);
      StringsRead(t, suffix, j + 1);
      assert TrackStrings(t)[j..] == [TrackStrings(t)[j]] + TrackStrings(t)[j + 1..];
    } else {
      assert TrackStrings(t)[j..] == [];
    }
  }

  // The ids are 32 bits wide, as the source's are.
  predicate IdsFit(t: TrackInfo) {
    && t.artistId < U32_LIMIT && t.albumId < U32_LIMIT && t.genreId < U32_LIMIT && t.labelId < U32_LIMIT
    && t.keyId < U32_LIMIT && t.artworkId < U32_LIMIT
  }

  // A track row is self-delimiting too: whatever follows it on the page, all its fields
  // and strings read back.
  lemma TrackDecodes(t: TrackInfo, suffix: bytes)
    requires |TrackRow(t)| < U16_LIMIT
    requires IdsFit(t)
    ensures DecodeTrack(TrackRow(t) + suffix) == Some(RecordOf(t))
  {
    hide TrackFixed, OffsetTable, Concat, Get16, Get32, TrackStrings, StringsFrom, Encoded, GetOr;
    var b := TrackRow(t) + suffix;
    StringsRead(t, suffix, 0);
    assert TrackStrings(t)[0..] == TrackStrings(t);
    assert b[..94] == TrackFixed(t);
    FixedReads(b, t);
    Small(t.artistId);
    Small(t.albumId);
    Small(t.genreId);
    Small(t.labelId);
    Small(t.keyId);
    Small(t.artworkId);
  }

  // What the row of a track says, field by field and slot by slot.
  lemma TrackRowSays(t: TrackInfo, suffix: bytes)
    requires |TrackRow(t)| < U16_LIMIT
    requires IdsFit(t)
    ensures DecodeTrack(TrackRow(t) + suffix).Some?
    ensures Says(DecodeTrack(TrackRow(t) + suffix).value, t.analysis, t.analyzePath)
  {
    hide DecodeTrack, TrackStrings, TextsOf;
    TrackDecodes(t, suffix);
    TextsInSlots(t);
  }

  lemma BuiltRowSays(t: TrackInfo)
    ensures |TrackRow(t)| < U16_LIMIT && IdsFit(t) ==>
      DecodeTrack(TrackRow(t)).Some? && Says(DecodeTrack(TrackRow(t)).value, t.analysis, t.analyzePath)
  {
    hide DecodeTrack, TrackRow, Says;
    if |TrackRow(t)| < U16_LIMIT && IdsFit(t) {
      TrackRowSays(t, []);
      assert TrackRow(t) + [] == TrackRow(t);
    }
  }

  // A record holds a track's own numbers, truncated as the row truncates them, and texts.
  ghost predicate Says(r: TrackRecord, a: Analysis, analyzePath: string) {
    && r.id == a.id && r.sampleRate == a.sampleRate && r.fileSize == a.fileSize % U32_LIMIT
    && r.bitrate == a.bitrate && r.tempo100 == a.tempo100 && r.bitDepth == a.bitDepth && r.duration == a.duration
    && r.trackNumber == (match a.trackNumber case None => 0 case Some(n) => n as nat)
    && r.year == (match a.year case None => 0 case Some(y) => y as nat)
    && TextsOf(r.strings, a, analyzePath)
  }
}
