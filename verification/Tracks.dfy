// What the database is built from: crates/bvault-core/src/track.rs and the records of
// pdb.rs. Floating-point fields appear as the integers the writer stores.
module Tracks {
  import opened Wrappers

  type u16 = x: int | 0 <= x < 0x1_0000
  type u32 = x: int | 0 <= x < 0x1_0000_0000

  type pitch = x: int | 0 <= x < 12

  datatype Key = Key(pitchClass: pitch, isMajor: bool)

  // The circle-of-fifths ids 1..12 for minor and 13..24 for major keys.
  const MINOR_MAP: seq<nat> := [1, 8, 3, 10, 5, 12, 7, 2, 9, 4, 11, 6]
  const INVERSE_MAP: seq<pitch> := [0, 0, 7, 2, 9, 4, 11, 6, 1, 8, 3, 10, 5]

  function ToRekordboxId(key: Key): (id: nat)
    ensures 1 <= id <= 24
  {
    var id := MINOR_MAP[key.pitchClass];
    if key.isMajor then id + 12 else id
  }

  function FromRekordboxId(id: nat): Key {
    if id == 0 then Key(0, false)
    else if id <= 12 then Key(INVERSE_MAP[id], false)
    else if id <= 24 then Key(INVERSE_MAP[id - 12], true)
    else Key(0, false)
  }

  // The key table is built from the ids alone; they determine the keys they came from.
  lemma KeyIdsInvert(key: Key)
    ensures FromRekordboxId(ToRekordboxId(key)) == key
  {}

  // Ids run along the circle of fifths: a fifth up is the next id, from the last back to
  // the first, minor from C minor at 1 and major from C major at 13.
  lemma FifthsAreNeighbours(key: Key)
    ensures ToRekordboxId(Key(0, false)) == 1 && ToRekordboxId(Key(0, true)) == 13
    ensures var fifth: pitch, id := (key.pitchClass + 7) % 12, ToRekordboxId(key);
      ToRekordboxId(Key(fifth, key.isMajor)) == if id == 12 then 1 else if id == 24 then 13 else id + 1
  {}

  const NOTE_NAMES: seq<string> := ["C", "C#", "D", "D#", "E", "F", "F#", "G", "G#", "A", "A#", "B"]

  function KeyName(key: Key): string {
    NOTE_NAMES[key.pitchClass] + if key.isMajor then "" else "m"
  }

  // A minor key's name is its major's with an m, and different pitches have different names.
  lemma KeyNamesDiffer(a: Key, b: Key)
    ensures KeyName(Key(a.pitchClass, false)) == KeyName(Key(a.pitchClass, true)) + "m"
    ensures KeyName(a) == KeyName(b) ==> a == b
  {
    NotesDiffer(a.pitchClass, b.pitchClass);
    if KeyName(a) == KeyName(b) {
      SameWithoutM(NOTE_NAMES[a.pitchClass], NOTE_NAMES[b.pitchClass], a.isMajor, b.isMajor);
    }
  }

  lemma SameWithoutM(x: string, y: string, first: bool, second: bool)
    requires 'm' !in x && 'm' !in y && (x + if first then "" else "m") == (y + if second then "" else "m")
    ensures x == y && first == second
  {
    var s := x + if first then "" else "m";
    assert !first ==> 'm' in s;
    assert first ==> x == s;
    assert second ==> y == s;
    assert !first && !second ==> x == s[..|s| - 1] == y;
  }

  // A note is its letter, raised by a sharp for the five black keys.
  lemma NotesDiffer(p: pitch, q: pitch)
    ensures |NOTE_NAMES[p]| == (if p in {1, 3, 6, 8, 10} then 2 else 1)
    ensures p in {1, 3, 6, 8, 10} ==> NOTE_NAMES[p] == NOTE_NAMES[p - 1] + "#"
    ensures 'm' !in NOTE_NAMES[p]
    ensures NOTE_NAMES[p] == NOTE_NAMES[q] ==> p == q
  {
    assert NOTE_NAMES[p][0] == NOTE_NAMES[q][0] ==> p == q || p == q + 1 || q == p + 1;
  }

  datatype Analysis = Analysis(
    id: u32, filePath: string, title: string, artist: string,
    album: Option<string>, genre: Option<string>, recordLabel: Option<string>,
    duration: u16, sampleRate: u32, bitDepth: u16, bitrate: u32, tempo100: u32,
    key: Option<Key>, fileSize: nat, year: Option<u16>, comment: Option<string>, trackNumber: Option<u32>)

  datatype TrackInfo = TrackInfo(
    analysis: Analysis, artistId: nat, albumId: nat, genreId: nat, labelId: nat, keyId: nat, artworkId: nat,
    analyzePath: string)

  datatype PlaylistInfo = PlaylistInfo(
    id: u32, parentId: u32, name: string, isFolder: bool, sortOrder: nat, trackIds: seq<u32>)

  function GetOr<T>(o: Option<T>, default: T): T {
    match o case Some(v) => v case None => default
  }

  function Decimal(n: nat): string {
    if n < 10 then [('0' as int + n) as char] else Decimal(n / 10) + [('0' as int + n % 10) as char]
  }

  predicate AreDigits(s: string) {
    forall k :: 0 <= k < |s| ==> '0' <= s[k] <= '9'
  }

  // The number that decimal digits stand for.
  function NumberOf(s: string): nat
    requires AreDigits(s)
  {
    if s == "" then 0 else 10 * NumberOf(s[..|s| - 1]) + (s[|s| - 1] as int - '0' as int)
  }

  // A number printed in decimal is read back from its digits, and has no leading zero.
  lemma {:induction false} DecimalReads(n: nat)
    ensures |Decimal(n)| >= 1 && AreDigits(Decimal(n)) && NumberOf(Decimal(n)) == n
    ensures Decimal(n)[0] == '0' ==> n == 0 && |Decimal(n)| == 1
  {
    if n >= 10 {
      DecimalReads(n / 10);
      var s := Decimal(n);
      assert s[..|s| - 1] == Decimal(n / 10);
    } else {
      assert Decimal(n)[..0] == "";
    }
  }

  // trim_start_matches('/')
  function WithoutLeadingSlashes(s: string): string {
    if s != "" && s[0] == '/' then WithoutLeadingSlashes(s[1..]) else s
  }

  lemma {:induction false} SlashesAreTrimmed(s: string)
    ensures IsTrimmed(WithoutLeadingSlashes(s), s)
  {
    if s != "" && s[0] == '/' {
      SlashesAreTrimmed(s[1..]);
      var n :| 0 <= n <= |s[1..]| && (forall k :: 0 <= k < n ==> s[1..][k] == '/')
        && WithoutLeadingSlashes(s[1..]) == s[1..][n..];
      assert s[1..][n..] == s[n + 1..];
      assert forall k :: 0 <= k < n + 1 ==> s[k] == '/' by {
        assert forall k :: 1 <= k < n + 1 ==> s[k] == s[1..][k - 1];
      }
    } else {
      assert s[0..] == s;
    }
  }

  // What is left of s when nothing but slashes is taken from its front, and all of them.
  predicate IsTrimmed(rest: string, s: string) {
    && (rest != "" ==> rest[0] != '/')
    && exists n :: 0 <= n <= |s| && (forall k :: 0 <= k < n ==> s[k] == '/') && rest == s[n..]
  }

  // split('/').next_back(): the part after the last slash.
  function FileName(path: string): (name: string)
    ensures '/' !in name
    ensures name == path || (|name| < |path| && path[|path| - |name| - 1] == '/' && path[|path| - |name|..] == name)
  {
    if '/' !in path then path
    else if path[|path| - 1] == '/' then ""
    else FileName(path[..|path| - 1]) + [path[|path| - 1]]
  }
}
