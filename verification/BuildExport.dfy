// crates/bvault-export/src/build.rs: ids and paths of an export, its manifest, and why
// the transfer of that manifest is safe.
module BuildExport {
  import opened Wrappers
  import opened Bytes
  import opened Tracks
  import opened Reconcile
  import ContentHash

  // A track to export: its content hash and where the raw file lies.
  datatype TrackInput = TrackInput(hash: string, rawLocation: string)

  // ---- Paths -----------------------------------------------------------------------------------

  // Where the last dot is.
  function LastDot(s: string): (k: Option<nat>)
    ensures k.None? ==> '.' !in s
    ensures k.Some? ==> k.value < |s| && s[k.value] == '.' && '.' !in s[k.value + 1..]
  {
    if s == [] then None
    else if s[|s| - 1] == '.' then Some(|s| - 1)
    else
      match LastDot(s[..|s| - 1])
      case None => None
      case Some(k) =>
        assert s[k + 1..] == s[..|s| - 1][k + 1..] + [s[|s| - 1]];
        Some(k)
  }

  // Path::extension, or "bin": what follows the last dot of the file name, unless that
  // dot is the first character.
  function Extension(location: string): (ext: string)
    ensures '.' !in ext
  {
    var name := FileName(location);
    if name == ".." then "bin"
    else
      match LastDot(name)
      case None => "bin"
      case Some(k) => if k == 0 then "bin" else name[k + 1..]
  }

  // A file name with a dot after its first character gives what follows the last one.
  lemma ExtensionIs(location: string, stem: string, ext: string)
    requires FileName(location) == stem + "." + ext && stem != "" && '.' !in ext && FileName(location) != ".."
    ensures Extension(location) == ext
  {
    var name := FileName(location);
    assert name[|stem|] == '.';
    var k := LastDot(name).value;
    assert name == name[..k] + "." + name[k + 1..];
    DotSplits(stem, ext, name[..k], name[k + 1..]);
  }

  // A name without a dot, or with only one at its very start, gives "bin".
  lemma NoExtension(location: string)
    requires forall k :: 0 < k < |FileName(location)| ==> FileName(location)[k] != '.'
    ensures Extension(location) == "bin"
  {
    hide FileName;
    var name := FileName(location);
    if LastDot(name).Some? { assert name[LastDot(name).value] == '.'; }
  }

  function ContentsPath(t: TrackInput): string {
    "Contents/" + t.hash + "." + Extension(t.rawLocation)
  }

  function UpperHexDigit(d: nat): char
    requires d < 16
  {
    "0123456789ABCDEF"[d]
  }

  function UpperHex(n: nat, width: nat): (s: string)
    ensures |s| == width
  {
    if width == 0 then [] else UpperHex(n / 16, width - 1) + [UpperHexDigit(n % 16)]
  }

  function ThreeDigits(n: nat): (s: string)
    requires n < 1000
    ensures |s| == 3
  {
    [('0' as int + n / 100) as char, ('0' as int + n / 10 % 10) as char, ('0' as int + n % 10) as char]
  }

  function AnlzDirectory(id: nat): (s: string)
    ensures |s| == 29
  {
    "PIONEER/USBANLZ/P" + ThreeDigits(id / 256 % 1000) + "/" + UpperHex(id, 8)
  }

  // The three analysis files of a track share a stem.
  function AnlzPath(id: nat, extension: string): string {
    AnlzDirectory(id) + "/ANLZ0000" + extension
  }

  const EXTENSIONS: seq<string> := [".DAT", ".EXT", ".2EX"]

  // masterDbId is printed in decimal.
  function FixedPaths(masterDbId: nat): seq<string> {
    ["PIONEER/rekordbox/export.pdb", "PIONEER/rekordbox/exportLibrary.db",
     "PIONEER/DeviceLibBackup/rbDevLibBaInfo_" + Decimal(masterDbId) + ".json",
     "PIONEER/DEVSETTING.DAT", "PIONEER/djprofile.nxs"]
  }

  // ---- The manifest ------------------------------------------------------------------------------

  // Entry number n: the fixed files, three analysis files a track, then the audio.
  function PathOf(tracks: seq<TrackInput>, masterDbId: nat, n: nat): string
    requires n < 5 + 4 * |tracks|
  {
    if n < 5 then FixedPaths(masterDbId)[n]
    else if n < 5 + 3 * |tracks| then AnlzPath((n - 5) / 3 + 1, EXTENSIONS[(n - 5) % 3])
    else ContentsPath(tracks[n - 5 - 3 * |tracks|])
  }

  function SourceOf(tracks: seq<TrackInput>, n: nat): Source
    requires n < 5 + 4 * |tracks|
  {
    if n < 5 + 3 * |tracks| then Staging else Raw(tracks[n - 5 - 3 * |tracks|].hash)
  }

  function Manifest(tracks: seq<TrackInput>, masterDbId: nat, sizes: string -> nat): (entries: seq<Entry>)
    ensures |entries| == 5 + 4 * |tracks|
  {
    seq(5 + 4 * |tracks|, n requires 0 <= n < 5 + 4 * |tracks| =>
      Entry(PathOf(tracks, masterDbId, n), sizes(PathOf(tracks, masterDbId, n)), SourceOf(tracks, n)))
  }

  // What belongs in the manifest: the files made here come from staging, and then each
  // track's raw file comes under the track's own hash; each entry has its own file's size.
  ghost predicate ListsExport(tracks: seq<TrackInput>, sizes: string -> nat, entries: seq<Entry>) {
    var audio := 5 + 3 * |tracks|;
    && |entries| == audio + |tracks|
    && (forall n :: 0 <= n < audio ==> entries[n].source == Staging)
    && (forall n :: audio <= n < |entries| ==>
          && entries[n].source == Raw(tracks[n - audio].hash)
          && entries[n].path
             == "Contents/" + tracks[n - audio].hash + "." + Extension(tracks[n - audio].rawLocation))
    && (forall n :: 0 <= n < |entries| ==> entries[n].size == sizes(entries[n].path))
    && (forall i :: 0 <= i < |tracks| ==>
          && entries[5 + 3 * i].path == AnlzPath(i + 1, ".DAT") && entries[6 + 3 * i].path == AnlzPath(i + 1, ".EXT")
          && entries[7 + 3 * i].path == AnlzPath(i + 1, ".2EX"))
    && entries[0].path == "PIONEER/rekordbox/export.pdb" && entries[1].path == "PIONEER/rekordbox/exportLibrary.db"
    && entries[3].path == "PIONEER/DEVSETTING.DAT" && entries[4].path == "PIONEER/djprofile.nxs"
  }

  lemma ManifestLists(tracks: seq<TrackInput>, masterDbId: nat, sizes: string -> nat)
    ensures ListsExport(tracks, sizes, Manifest(tracks, masterDbId, sizes))
  {
    hide FixedPaths, AnlzPath, Extension, PathOf, SourceOf;
    var audio := 5 + 3 * |tracks|;
    forall n | 0 <= n < audio
      ensures SourceOf(tracks, n) == Staging
    {
      StagedEntry(tracks, n);
    }
    forall n | audio <= n < audio + |tracks|
      ensures PathOf(tracks, masterDbId, n) == ContentsPath(tracks[n - audio])
      ensures SourceOf(tracks, n) == Raw(tracks[n - audio].hash)
    {
      AudioEntry(tracks, masterDbId, n - audio);
    }
    forall i | 0 <= i < |tracks|
      ensures PathOf(tracks, masterDbId, 5 + 3 * i) == AnlzPath(i + 1, ".DAT")
      ensures PathOf(tracks, masterDbId, 6 + 3 * i) == AnlzPath(i + 1, ".EXT")
      ensures PathOf(tracks, masterDbId, 7 + 3 * i) == AnlzPath(i + 1, ".2EX")
    {
      AnlzEntries(tracks, masterDbId, i);
    }
    FixedNames(tracks, masterDbId);
  }

  lemma FixedNames(tracks: seq<TrackInput>, masterDbId: nat)
    ensures PathOf(tracks, masterDbId, 0) == "PIONEER/rekordbox/export.pdb"
    ensures PathOf(tracks, masterDbId, 1) == "PIONEER/rekordbox/exportLibrary.db"
    ensures PathOf(tracks, masterDbId, 3) == "PIONEER/DEVSETTING.DAT"
    ensures PathOf(tracks, masterDbId, 4) == "PIONEER/djprofile.nxs"
  {}

  // The remaining fixed name carries the database's number in decimal.
  lemma BackupPathSays(tracks: seq<TrackInput>, masterDbId: nat, sizes: string -> nat) returns (digits: string)
    ensures AreDigits(digits) && NumberOf(digits) == masterDbId && |digits| >= 1
    ensures digits[0] == '0' ==> masterDbId == 0 && |digits| == 1
    ensures Manifest(tracks, masterDbId, sizes)[2].path
      == "PIONEER/DeviceLibBackup/rbDevLibBaInfo_" + digits + ".json"
  {
    hide Decimal, AreDigits, NumberOf;
    digits := Decimal(masterDbId);
    DecimalReads(masterDbId);
    assert PathOf(tracks, masterDbId, 2) == FixedPaths(masterDbId)[2];
  }

  lemma StagedEntry(tracks: seq<TrackInput>, n: nat)
    requires n < 5 + 3 * |tracks|
    ensures SourceOf(tracks, n) == Staging
  {}

  // So when hashes differ there is exactly one entry for each track's raw file.
  lemma OneEntryPerTrack(tracks: seq<TrackInput>, sizes: string -> nat, entries: seq<Entry>, i: nat)
    requires ListsExport(tracks, sizes, entries) && i < |tracks|
    requires forall j, k :: 0 <= j < k < |tracks| ==> tracks[j].hash != tracks[k].hash
    ensures forall n :: 0 <= n < |entries| ==>
      (entries[n].source == Raw(tracks[i].hash) <==> n == 5 + 3 * |tracks| + i)
  {}

  method BuildManifest(tracks: seq<TrackInput>, masterDbId: nat, sizes: string -> nat) returns (entries: seq<Entry>)
    ensures entries == Manifest(tracks, masterDbId, sizes) && ListsExport(tracks, sizes, entries)
  {
    hide ContentsPath, AnlzPath, FixedPaths, PathOf, SourceOf, ListsExport;
    entries := [];
    var fixed := FixedPaths(masterDbId);
    FixedPathCount(masterDbId);
    ghost var all := Manifest(tracks, masterDbId, sizes);
    for i := 0 to 5
      invariant |entries| == i && entries == all[..i]
    {
      FixedEntry(tracks, masterDbId, i);
      assert all[..i + 1] == all[..i] + [all[i]];
      entries := entries + [Entry(fixed[i], sizes(fixed[i]), Staging)];
    }
    for i := 0 to |tracks|
      invariant |entries| == 5 + 3 * i && entries == all[..5 + 3 * i]
    {
      var id := i + 1;
      var dat, ext, two := AnlzPath(id, ".DAT"), AnlzPath(id, ".EXT"), AnlzPath(id, ".2EX");
      AnlzEntries(tracks, masterDbId, i);
      ThreeMore(all, 5 + 3 * i);
      entries := entries + [Entry(dat, sizes(dat), Staging)];
      entries := entries + [Entry(ext, sizes(ext), Staging)];
      entries := entries + [Entry(two, sizes(two), Staging)];
    }
    for i := 0 to |tracks|
      invariant |entries| == 5 + 3 * |tracks| + i && entries == all[..5 + 3 * |tracks| + i]
    {
      var path := ContentsPath(tracks[i]);
      ghost var n := 5 + 3 * |tracks| + i;
      AudioEntry(tracks, masterDbId, i);
      assert all[..n + 1] == all[..n] + [all[n]];
      entries := entries + [Entry(path, sizes(path), Raw(tracks[i].hash))];
    }
    assert all[..5 + 4 * |tracks|] == all;
    ManifestLists(tracks, masterDbId, sizes);
  }

  lemma ThreeMore(all: seq<Entry>, n: nat)
    requires n + 3 <= |all|
    ensures all[..n + 3] == all[..n] + [all[n]] + [all[n + 1]] + [all[n + 2]]
  {}

  lemma FixedPathCount(masterDbId: nat)
    ensures |FixedPaths(masterDbId)| == 5
  {}

  lemma FixedEntry(tracks: seq<TrackInput>, masterDbId: nat, i: nat)
    requires i < 5
    ensures |FixedPaths(masterDbId)| == 5 && PathOf(tracks, masterDbId, i) == FixedPaths(masterDbId)[i]
    ensures SourceOf(tracks, i) == Staging
  {}

  lemma AudioEntry(tracks: seq<TrackInput>, masterDbId: nat, i: nat)
    requires i < |tracks|
    ensures PathOf(tracks, masterDbId, 5 + 3 * |tracks| + i) == ContentsPath(tracks[i])
    ensures SourceOf(tracks, 5 + 3 * |tracks| + i) == Raw(tracks[i].hash)
  {}

  lemma AnlzEntries(tracks: seq<TrackInput>, masterDbId: nat, i: nat)
    requires i < |tracks|
    ensures PathOf(tracks, masterDbId, 5 + 3 * i) == AnlzPath(i + 1, ".DAT")
    ensures PathOf(tracks, masterDbId, 5 + 3 * i + 1) == AnlzPath(i + 1, ".EXT")
    ensures PathOf(tracks, masterDbId, 5 + 3 * i + 2) == AnlzPath(i + 1, ".2EX")
    ensures SourceOf(tracks, 5 + 3 * i) == SourceOf(tracks, 5 + 3 * i + 1) == SourceOf(tracks, 5 + 3 * i + 2) == Staging
  {
    hide AnlzPath;
  }

  // ---- Every path is different, and none is another's temporary file -------------------------------

  predicate HashesProper(tracks: seq<TrackInput>) {
    && (forall i, j :: 0 <= i < j < |tracks| ==> tracks[i].hash != tracks[j].hash)
    && (forall i :: 0 <= i < |tracks| ==> '.' !in tracks[i].hash)
  }

  lemma LastDotIsLater(a: string, b: string, c: string, d: string)
    requires '.' !in b && a + "." + b == c + "." + d
    ensures |c| <= |a|
  {
    var s := a + "." + b;
    assert forall k :: |a| < k < |s| ==> s[k] == b[k - |a| - 1];
    assert s[|c|] == '.';
  }

  // What is before and after the last dot.
  lemma DotSplits(a: string, b: string, c: string, d: string)
    requires '.' !in b && '.' !in d && a + "." + b == c + "." + d
    ensures a == c && b == d
  {
    LastDotIsLater(a, b, c, d);
    LastDotIsLater(c, d, a, b);
    var s := a + "." + b;
    assert a == s[..|a|] && c == s[..|c|] && b == s[|a| + 1..] && d == s[|c| + 1..];
  }

  lemma ContentsPathsDiffer(a: TrackInput, b: TrackInput)
    requires ContentsPath(a) == ContentsPath(b)
    ensures a.hash == b.hash
  {
    hide Extension;
    var x, y := ContentsPath(a), ContentsPath(b);
    assert x[9..] == a.hash + "." + Extension(a.rawLocation) && y[9..] == b.hash + "." + Extension(b.rawLocation);
    DotSplits(a.hash, Extension(a.rawLocation), b.hash, Extension(b.rawLocation));
  }

  // An audio path is no other audio path's temporary file, as long as hashes have no dot.
  lemma ContentsPathIsNotTmp(a: TrackInput, b: TrackInput)
    requires '.' !in a.hash
    ensures ContentsPath(a) != TmpOf(ContentsPath(b))
  {
    hide Extension;
    if ContentsPath(a) == TmpOf(ContentsPath(b)) {
      var ext, inner := Extension(a.rawLocation), b.hash + "." + Extension(b.rawLocation);
      assert ContentsPath(a)[9..] == a.hash + "." + ext;
      assert TmpOf(ContentsPath(b))[9..] == inner + "." + "bvault-tmp";
      assert inner[|b.hash|] == '.';
      DotSplits(a.hash, ext, inner, "bvault-tmp");
    }
  }

  lemma {:induction false} HexDiffers(a: nat, b: nat, width: nat)
    requires UpperHex(a, width) == UpperHex(b, width) && a < ContentHash.Power16(width)
    requires b < ContentHash.Power16(width)
    ensures a == b
  {
    if width > 0 {
      var x, y := UpperHex(a, width), UpperHex(b, width);
      assert x[..width - 1] == UpperHex(a / 16, width - 1) && y[..width - 1] == UpperHex(b / 16, width - 1);
      assert x[width - 1] == y[width - 1];
      DigitsDiffer(a % 16, b % 16);
      HexDiffers(a / 16, b / 16, width - 1);
    }
  }

  lemma DigitsDiffer(a: nat, b: nat)
    requires a < 16 && b < 16 && UpperHexDigit(a) == UpperHexDigit(b)
    ensures a == b
  {}

  lemma AnlzPathsDiffer(a: nat, x: string, b: nat, y: string)
    requires a < U32_LIMIT && b < U32_LIMIT && |x| == |y| == 4 && AnlzPath(a, x) == AnlzPath(b, y)
    ensures a == b && x == y
  {
    hide UpperHex, ThreeDigits;
    var p, q := AnlzPath(a, x), AnlzPath(b, y);
    assert p[38..] == x && q[38..] == y;
    assert p[21..29] == UpperHex(a, 8) && q[21..29] == UpperHex(b, 8);
    assert ContentHash.Power16(8) == U32_LIMIT;
    HexDiffers(a, b, 8);
  }

  predicate AreHexDigits(s: string) {
    forall k :: 0 <= k < |s| ==> '0' <= s[k] <= '9' || 'A' <= s[k] <= 'F'
  }

  function HexNumber(s: string): nat
    requires AreHexDigits(s)
  {
    if s == [] then 0
    else
      var c := s[|s| - 1];
      16 * HexNumber(s[..|s| - 1]) + if c <= '9' then (c - '0') as nat else (c - 'A') as nat + 10
  }

  lemma {:induction false} UpperHexReads(n: nat, width: nat)
    requires n < ContentHash.Power16(width)
    ensures AreHexDigits(UpperHex(n, width)) && HexNumber(UpperHex(n, width)) == n
  {
    if width > 0 {
      hide UpperHexDigit, AreHexDigits, HexNumber;
      UpperHexReads(n / 16, width - 1);
      HexDigitReads(n % 16);
      HexSnoc(UpperHex(n / 16, width - 1), UpperHexDigit(n % 16));
    }
  }

  lemma HexSnoc(s: string, c: char)
    requires AreHexDigits(s) && ('0' <= c <= '9' || 'A' <= c <= 'F')
    ensures AreHexDigits(s + [c])
    ensures HexNumber(s + [c]) == 16 * HexNumber(s) + if c <= '9' then (c - '0') as nat else (c - 'A') as nat + 10
  {
    assert (s + [c])[..|s|] == s;
  }

  lemma HexDigitReads(d: nat)
    requires d < 16
    ensures var c := UpperHexDigit(d);
      && ('0' <= c <= '9' || 'A' <= c <= 'F')
      && d == if c <= '9' then (c - '0') as nat else (c - 'A') as nat + 10
  {}

  lemma ThreeDigitsRead(n: nat)
    requires n < 1000
    ensures AreDigits(ThreeDigits(n)) && NumberOf(ThreeDigits(n)) == n
  {
    var s := ThreeDigits(n);
    assert s[..2][..1][..0] == "";
    assert s[..2] == [s[0], s[1]] && s[..2][..1] == [s[0]];
    assert NumberOf(s[..2][..1]) == s[0] as int - '0' as int;
    assert NumberOf(s[..2]) == 10 * NumberOf(s[..2][..1]) + (s[1] as int - '0' as int);
  }

  // Where the analysis files of a track lie: under PIONEER/USBANLZ, in a directory numbered
  // by the 256s of the id modulo 1000, in one named after the id in hexadecimal.
  lemma AnlzPathSays(id: nat, extension: string)
    requires id < U32_LIMIT
    ensures var p := AnlzPath(id, extension);
      && |p| == 38 + |extension| && p[..17] == "PIONEER/USBANLZ/P" && p[20] == '/'
      && AreDigits(p[17..20]) && NumberOf(p[17..20]) == id / 256 % 1000
      && AreHexDigits(p[21..29]) && HexNumber(p[21..29]) == id
      && p[29..38] == "/ANLZ0000" && p[38..] == extension
  {
    hide UpperHex, ThreeDigits, HexNumber, NumberOf, AreDigits, AreHexDigits;
    var p := AnlzPath(id, extension);
    assert p[17..20] == ThreeDigits(id / 256 % 1000) && p[21..29] == UpperHex(id, 8);
    assert ContentHash.Power16(8) == U32_LIMIT;
    ThreeDigitsRead(id / 256 % 1000);
    UpperHexReads(id, 8);
  }

  // What tells the kinds of path apart: the directory, and the last character.
  datatype Kind = Fixed(n: nat) | Anlz | Audio

  predicate Looks(path: string, kind: Kind) {
    match kind
    case Audio => |path| > 0 && path[0] == 'C'
    case Anlz => |path| == 42 && path[0] == 'P' && path[8] == 'U' && path[41] != 'p'
    case Fixed(n) => FixedLooks(path, n)
  }

  predicate FixedLooks(path: string, n: nat) {
    && |path| > 9 && path[0] == 'P' && path[|path| - 1] != 'p'
    && (n == 0 ==> path[8] == 'r' && |path| == 28)
    && (n == 1 ==> path[8] == 'r' && |path| == 34)
    && (n == 2 ==> path[8] == 'D' && path[9] == 'e')
    && (n == 3 ==> path[8] == 'D' && path[9] == 'E')
    && (n == 4 ==> path[8] == 'd')
  }

  function KindOf(tracks: seq<TrackInput>, n: nat): Kind {
    if n < 5 then Fixed(n) else if n < 5 + 3 * |tracks| then Anlz else Audio
  }

  lemma FixedPathLooks(masterDbId: nat, n: nat)
    requires n < 5
    ensures FixedLooks(FixedPaths(masterDbId)[n], n)
  {
    hide Decimal;
    var middle := Decimal(masterDbId);
    var p := "PIONEER/DeviceLibBackup/rbDevLibBaInfo_" + middle + ".json";
    assert p[|p| - 1] == 'n' && p[0] == 'P' && p[8] == 'D' && p[9] == 'e';
  }

  lemma AnlzPathLooks(id: nat, extension: string)
    requires extension in EXTENSIONS
    ensures Looks(AnlzPath(id, extension), Anlz)
  {
    hide UpperHex, ThreeDigits;
  }

  lemma PathLooks(tracks: seq<TrackInput>, masterDbId: nat, n: nat)
    requires n < 5 + 4 * |tracks|
    ensures Looks(PathOf(tracks, masterDbId, n), KindOf(tracks, n))
  {
    hide FixedPaths, AnlzPath, FixedLooks;
    if n < 5 {
      FixedPathLooks(masterDbId, n);
    } else if n < 5 + 3 * |tracks| {
      AnlzPathLooks((n - 5) / 3 + 1, EXTENSIONS[(n - 5) % 3]);
    }
  }

  lemma KindsDiffer(p: string, a: Kind, b: Kind)
    requires Looks(p, a) && Looks(p, b) && (a.Fixed? ==> a.n < 5) && (b.Fixed? ==> b.n < 5)
    ensures a == b
  {}

  lemma PathsDiffer(tracks: seq<TrackInput>, masterDbId: nat, m: nat, n: nat)
    requires HashesProper(tracks) && |tracks| < U32_LIMIT - 1 && m < n < 5 + 4 * |tracks|
    ensures PathOf(tracks, masterDbId, m) != PathOf(tracks, masterDbId, n)
  {
    hide FixedPaths, AnlzPath, ContentsPath, Looks;
    PathLooks(tracks, masterDbId, m);
    PathLooks(tracks, masterDbId, n);
    if PathOf(tracks, masterDbId, m) == PathOf(tracks, masterDbId, n) {
      KindsDiffer(PathOf(tracks, masterDbId, m), KindOf(tracks, m), KindOf(tracks, n));
      if KindOf(tracks, m) == Anlz {
        AnlzPathsDiffer((m - 5) / 3 + 1, EXTENSIONS[(m - 5) % 3], (n - 5) / 3 + 1, EXTENSIONS[(n - 5) % 3]);
        ExtensionsDiffer((m - 5) % 3, (n - 5) % 3);
      } else if KindOf(tracks, m) == Audio {
        ContentsPathsDiffer(tracks[m - 5 - 3 * |tracks|], tracks[n - 5 - 3 * |tracks|]);
      }
    }
  }

  lemma ExtensionsDiffer(i: nat, j: nat)
    requires i < 3 && j < 3 && EXTENSIONS[i] == EXTENSIONS[j]
    ensures i == j
  {
    assert EXTENSIONS[0][1] == 'D' && EXTENSIONS[1][1] == 'E' && EXTENSIONS[2][1] == '2';
  }

  lemma PathIsNotTmp(tracks: seq<TrackInput>, masterDbId: nat, m: nat, n: nat)
    requires HashesProper(tracks) && m < 5 + 4 * |tracks| && n < 5 + 4 * |tracks|
    ensures PathOf(tracks, masterDbId, m) != TmpOf(PathOf(tracks, masterDbId, n))
  {
    hide FixedPaths, AnlzPath, ContentsPath;
    PathLooks(tracks, masterDbId, m);
    PathLooks(tracks, masterDbId, n);
    var p, q := PathOf(tracks, masterDbId, m), PathOf(tracks, masterDbId, n);
    assert TmpOf(q)[|TmpOf(q)| - 1] == 'p' && (|q| > 0 ==> TmpOf(q)[0] == q[0]);
    if KindOf(tracks, m) == Audio && KindOf(tracks, n) == Audio {
      ContentsPathIsNotTmp(tracks[m - 5 - 3 * |tracks|], tracks[n - 5 - 3 * |tracks|]);
    }
  }

  // Every manifest of an export has distinct paths, none of them another's temporary
  // file: what the transfer needs to be safe in all circumstances.
  lemma ManifestIsProper(tracks: seq<TrackInput>, masterDbId: nat, sizes: string -> nat)
    requires HashesProper(tracks) && |tracks| < U32_LIMIT - 1
    ensures DistinctPaths(Manifest(tracks, masterDbId, sizes)) && NoTmpClash(Manifest(tracks, masterDbId, sizes))
  {
    hide PathOf, HashesProper;
    var entries := Manifest(tracks, masterDbId, sizes);
    forall m, n | 0 <= m < n < |entries|
      ensures entries[m].path != entries[n].path
    {
      PathsDiffer(tracks, masterDbId, m, n);
    }
    forall m, n | 0 <= m < |entries| && 0 <= n < |entries|
      ensures entries[m].path != TmpOf(entries[n].path)
    {
      PathIsNotTmp(tracks, masterDbId, m, n);
    }
  }

  // Transferring an export never leaves a half-written file in place of an old one.
  lemma ExportTransfersSafely(tracks: seq<TrackInput>, masterDbId: nat, sizes: string -> nat,
                              conds: nat -> Conditions, xxh3: ContentHash.Digest, states: seq<Files>)
    requires HashesProper(tracks) && |tracks| < U32_LIMIT - 1
    requires IsRun(Manifest(tracks, masterDbId, sizes), conds, xxh3, states)
    ensures SafeRun(Manifest(tracks, masterDbId, sizes), conds, xxh3, states)
  {
    hide Manifest, HashesProper, IsRun, SafeRun;
    ManifestIsProper(tracks, masterDbId, sizes);
    RunIsSafe(Manifest(tracks, masterDbId, sizes), conds, xxh3, states);
  }

  lemma ListedAudio(tracks: seq<TrackInput>, sizes: string -> nat, entries: seq<Entry>, i: nat)
    requires ListsExport(tracks, sizes, entries) && i < |tracks|
    ensures var n := 5 + 3 * |tracks| + i;
      && n < |entries| == 5 + 4 * |tracks| && entries[n].source == Raw(tracks[i].hash)
      && entries[n].path == "Contents/" + tracks[i].hash + "." + Extension(tracks[i].rawLocation)
  {
    hide AnlzPath, Extension;
  }

  // When the transfer of an export has gone through it all and reported track i's audio
  // done, the file at the track's place on the stick has the track's hash.
  lemma AudioArrives(tracks: seq<TrackInput>, masterDbId: nat, sizes: string -> nat, conds: nat -> Conditions,
                     xxh3: ContentHash.Digest, states: seq<Files>, i: nat)
    requires HashesProper(tracks) && |tracks| < U32_LIMIT - 1 && i < |tracks|
    requires IsRun(Manifest(tracks, masterDbId, sizes), conds, xxh3, states) && |states| == 5 + 4 * |tracks| + 1
    requires var n := 5 + 3 * |tracks| + i;
      Judge(states[n], Manifest(tracks, masterDbId, sizes)[n], conds(n), xxh3) == Done
    ensures var end := states[|states| - 1];
      var path := "Contents/" + tracks[i].hash + "." + Extension(tracks[i].rawLocation);
      path in end && ContentHash.HashHex(ContentHash.HashBytes(xxh3, end[path])) == tracks[i].hash
  {
    hide Manifest, HashesProper, IsRun, Judge, ContentHash.HashHex, ContentHash.HashBytes, Extension, ListsExport,
         DistinctPaths, NoTmpClash;
    var entries := Manifest(tracks, masterDbId, sizes);
    ManifestIsProper(tracks, masterDbId, sizes);
    ManifestLists(tracks, masterDbId, sizes);
    ListedAudio(tracks, sizes, entries, i);
    RawFilesAreVerified(entries, conds, xxh3, states, 5 + 3 * |tracks| + i);
  }

  // And if that hash was made from an original, what lies there is as long as it was and
  // begins with the same first MiB, unless the digest collides on the two.
  lemma AudioIsTheOriginal(tracks: seq<TrackInput>, masterDbId: nat, sizes: string -> nat, conds: nat -> Conditions,
                           xxh3: ContentHash.Digest, states: seq<Files>, i: nat, original: bytes)
    requires HashesProper(tracks) && |tracks| < U32_LIMIT - 1 && i < |tracks|
    requires IsRun(Manifest(tracks, masterDbId, sizes), conds, xxh3, states) && |states| == 5 + 4 * |tracks| + 1
    requires var n := 5 + 3 * |tracks| + i;
      && Judge(states[n], Manifest(tracks, masterDbId, sizes)[n], conds(n), xxh3) == Done
      && |Streamed(conds(n))| < ContentHash.U64_LIMIT
      && !ContentHash.Collides(xxh3, Streamed(conds(n)), original)
    requires tracks[i].hash == ContentHash.HashHex(ContentHash.HashBytes(xxh3, original))
    requires |original| < ContentHash.U64_LIMIT && forall x: bytes :: xxh3(x) < ContentHash.U64_LIMIT
    ensures var end := states[|states| - 1];
      var path := "Contents/" + tracks[i].hash + "." + Extension(tracks[i].rawLocation);
      && path in end && |end[path]| == |original|
      && forall k :: 0 <= k < |original| && k < 1_048_576 ==> end[path][k] == original[k]
  {
    hide Manifest, HashesProper, IsRun, Judge, Streamed, ContentHash.HashHex, ContentHash.HashBytes,
         ContentHash.Collides, Extension, ListsExport, DistinctPaths, NoTmpClash;
    var entries := Manifest(tracks, masterDbId, sizes);
    ManifestIsProper(tracks, masterDbId, sizes);
    ManifestLists(tracks, masterDbId, sizes);
    ListedAudio(tracks, sizes, entries, i);
    RawFilesAreComplete(entries, conds, xxh3, states, 5 + 3 * |tracks| + i, original);
  }

  // Content hashes, as they are printed, have no dot.
  lemma {:induction false} HexHasNoDot(n: nat, width: nat)
    ensures '.' !in ContentHash.HexDigits(n, width)
  {
    if width > 0 { HexHasNoDot(n / 16, width - 1); }
  }

  // Tracks stored under the printed forms of different 64-bit hashes are proper.
  lemma HashedTracksAreProper(hashes: seq<nat>, tracks: seq<TrackInput>)
    requires |hashes| == |tracks|
    requires forall i :: 0 <= i < |hashes| ==>
      hashes[i] < ContentHash.U64_LIMIT && tracks[i].hash == ContentHash.HashHex(hashes[i])
    requires forall i, j :: 0 <= i < j < |hashes| ==> hashes[i] != hashes[j]
    ensures HashesProper(tracks)
  {
    forall i | 0 <= i < |tracks|
      ensures '.' !in tracks[i].hash && ContentHash.ParseHex(tracks[i].hash) == hashes[i]
    {
      HexHasNoDot(hashes[i], 16);
      ContentHash.HashHexParses(hashes[i]);
    }
  }
}
