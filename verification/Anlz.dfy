// The ANLZ analysis files of crates/bvault-core/src/anlz.rs: big-endian tagged sections
// behind a 28-byte header. A reader hops from tag to tag by the lengths they declare.
module Anlz {
  import opened Wrappers
  import opened Bytes
  import opened DeviceString
  import BeatGrid

  // ---- Big-endian numbers ---------------------------------------------------------------------

  function BE16(x: nat): (r: bytes)
    ensures |r| == 2
  {
    [B1(x), B0(x)]
  }

  function BE32(x: nat): (r: bytes)
    ensures |r| == 4
  {
    [B3(x), B2(x), B1(x), B0(x)]
  }

  function GetBE16(b: bytes, at: nat): nat
    requires at + 2 <= |b|
  {
    0x100 * b[at] as int + b[at + 1] as int
  }

  function GetBE32(b: bytes, at: nat): nat
    requires at + 4 <= |b|
  {
    0x100_0000 * b[at] as int + 0x1_0000 * b[at + 1] as int + 0x100 * b[at + 2] as int + b[at + 3] as int
  }

  lemma ReadBE16(b: bytes, at: nat, x: nat)
    requires at + 2 <= |b| && b[at..at + 2] == BE16(x) && x < U16_LIMIT
    ensures GetBE16(b, at) == x
  {
    var s := b[at..at + 2];
    assert b[at] == s[0] && b[at + 1] == s[1];
    SplitU16(x);
  }

  lemma ReadBE32(b: bytes, at: nat, x: nat)
    requires at + 4 <= |b| && b[at..at + 4] == BE32(x) && x < U32_LIMIT
    ensures GetBE32(b, at) == x
  {
    hide B0, B1, B2, B3;
    var s := b[at..at + 4];
    assert b[at] == s[0] && b[at + 1] == s[1] && b[at + 2] == s[2] && b[at + 3] == s[3];
    SplitU32(x);
  }

  // ---- Data that is written entry by entry -----------------------------------------------------

  function Entries(n: nat, f: nat -> bytes): bytes {
    if n == 0 then [] else Entries(n - 1, f) + f(n - 1)
  }

  lemma {:induction false} EntriesLength(n: nat, f: nat -> bytes, size: nat)
    requires forall i :: 0 <= i < n ==> |f(i)| == size
    ensures |Entries(n, f)| == n * size
  {
    if n > 0 { EntriesLength(n - 1, f, size); }
  }

  lemma {:induction false} EntryAt(n: nat, f: nat -> bytes, size: nat, i: nat)
    requires i < n && forall k :: 0 <= k < n ==> |f(k)| == size
    ensures |Entries(n, f)| == n * size && 0 <= i * size <= (i + 1) * size <= n * size
    ensures Entries(n, f)[i * size..(i + 1) * size] == f(i)
  {
    EntriesLength(n, f, size);
    EntriesLength(n - 1, f, size);
    assert n * size == (n - 1) * size + size;
    if i < n - 1 {
      EntryAt(n - 1, f, size, i);
      assert (i + 1) * size <= (n - 1) * size;
    }
  }

  // ---- Sections --------------------------------------------------------------------------------

  const PPTH: bytes := [0x50, 0x50, 0x54, 0x48]
  const PVBR: bytes := [0x50, 0x56, 0x42, 0x52]
  const PQTZ: bytes := [0x50, 0x51, 0x54, 0x5A]
  const PWAV: bytes := [0x50, 0x57, 0x41, 0x56]
  const PWV2: bytes := [0x50, 0x57, 0x56, 0x32]
  const PWV3: bytes := [0x50, 0x57, 0x56, 0x33]
  const PWV4: bytes := [0x50, 0x57, 0x56, 0x34]
  const PWV5: bytes := [0x50, 0x57, 0x56, 0x35]
  const PWV6: bytes := [0x50, 0x57, 0x56, 0x36]
  const PWV7: bytes := [0x50, 0x57, 0x56, 0x37]
  const PWVC: bytes := [0x50, 0x57, 0x56, 0x43]
  const PCOB: bytes := [0x50, 0x43, 0x4F, 0x42]
  const PCO2: bytes := [0x50, 0x43, 0x4F, 0x32]
  const PMAI: bytes := [0x50, 0x4D, 0x41, 0x49]

  function Section(tag: bytes, lenHeader: nat, lenTag: nat, rest: bytes): (r: bytes)
    requires |tag| == 4
    ensures |r| == 12 + |rest|
  {
    tag + BE32(lenHeader) + BE32(lenTag) + rest
  }

  // Starts with the tag and declares its own length.
  predicate Framed(s: bytes, tag: bytes) {
    12 <= |s| && s[..4] == tag && GetBE32(s, 8) == |s|
  }

  lemma SectionIsFramed(tag: bytes, lenHeader: nat, rest: bytes)
    requires |tag| == 4 && 12 + |rest| < U32_LIMIT
    ensures Framed(Section(tag, lenHeader, 12 + |rest|, rest), tag)
  {
    hide BE32, GetBE32;
    var s := Section(tag, lenHeader, 12 + |rest|, rest);
    assert s[..4] == tag && s[8..12] == BE32(12 + |rest|);
    ReadBE32(s, 8, |s|);
  }

  function PmaiHeader(total: nat): (r: bytes)
    ensures |r| == 28
  {
    PMAI + BE32(28) + BE32(total) + BE32(1) + BE32(0x1_0000) + BE32(0x1_0000) + BE32(0)
  }

  // A whole file.
  function FileOf(sections: seq<bytes>): bytes {
    PmaiHeader(28 + |Concat(sections)|) + Concat(sections)
  }

  // ---- The reader --------------------------------------------------------------------------------

  // Positions visited when hopping by declared lengths, and where the hops end.
  function Hops(file: bytes, at: nat): seq<nat>
    decreases |file| - at
  {
    if at + 12 > |file| || GetBE32(file, at + 8) < 12 then []
    else [at] + Hops(file, at + GetBE32(file, at + 8))
  }

  function HopsEnd(file: bytes, at: nat): nat
    decreases |file| - at
  {
    if at + 12 > |file| || GetBE32(file, at + 8) < 12 then at
    else HopsEnd(file, at + GetBE32(file, at + 8))
  }

  function TagAt(file: bytes, at: nat): bytes {
    if at + 4 <= |file| then file[at..at + 4] else []
  }

  // Where the sections really start when the first is at `at`.
  function Starts(sections: seq<bytes>, at: nat): (r: seq<nat>)
    ensures |r| == |sections|
  {
    if sections == [] then [] else [at] + Starts(sections[1..], at + |sections[0]|)
  }

  predicate AllFramed(sections: seq<bytes>, tags: seq<bytes>) {
    |sections| == |tags| && forall i :: 0 <= i < |sections| ==> Framed(sections[i], tags[i])
  }

  // Hopping visits exactly the starts of the sections, in order, finds their tags, and
  // ends at the declared length of the file, which is its real length.
  predicate Tiles(file: bytes, sections: seq<bytes>, tags: seq<bytes>) {
    && 28 <= |file| && GetBE32(file, 8) == |file|
    && Hops(file, 28) == Starts(sections, 28) && HopsEnd(file, 28) == |file|
    && |sections| == |tags| && forall i :: 0 <= i < |sections| ==> TagAt(file, Starts(sections, 28)[i]) == tags[i]
  }

  lemma {:induction false} HopsOverFramed(pre: bytes, sections: seq<bytes>, tags: seq<bytes>)
    requires AllFramed(sections, tags)
    ensures var file := pre + Concat(sections);
      && Hops(file, |pre|) == Starts(sections, |pre|) && HopsEnd(file, |pre|) == |file|
      && forall i :: 0 <= i < |sections| ==> TagAt(file, Starts(sections, |pre|)[i]) == tags[i]
    decreases |sections|
  {
    hide GetBE32;
    var file := pre + Concat(sections);
    if sections == [] {
      assert file == pre;
    } else {
      var s := sections[0];
      assert Framed(s, tags[0]);
      assert file == (pre + s) + Concat(sections[1..]);
      HopsOverFramed(pre + s, sections[1..], tags[1..]);
      FramedInFile(pre, s, Concat(sections[1..]), tags[0]);
      assert file == pre + s + Concat(sections[1..]);
      forall i | 0 <= i < |sections|
        ensures TagAt(file, Starts(sections, |pre|)[i]) == tags[i]
      {
        assert i > 0 ==> tags[i] == tags[1..][i - 1];
      }
    }
  }

  lemma FramedInFile(pre: bytes, s: bytes, post: bytes, tag: bytes)
    requires Framed(s, tag)
    ensures var file := pre + s + post;
      |pre| + 12 <= |file| && GetBE32(file, |pre| + 8) == |s| && TagAt(file, |pre|) == tag
  {
    var file := pre + s + post;
    assert file[|pre| + 8] == s[8] && file[|pre| + 9] == s[9] && file[|pre| + 10] == s[10] && file[|pre| + 11] == s[11];
    assert file[|pre|..|pre| + 4] == s[..4];
  }

  lemma FramedSectionsTile(sections: seq<bytes>, tags: seq<bytes>)
    requires AllFramed(sections, tags) && 28 + |Concat(sections)| < U32_LIMIT
    ensures Tiles(FileOf(sections), sections, tags)
  {
    hide GetBE32, BE32;
    var header := PmaiHeader(28 + |Concat(sections)|);
    HopsOverFramed(header, sections, tags);
    var file := FileOf(sections);
    assert file[8..12] == header[8..12] == BE32(28 + |Concat(sections)|);
    ReadBE32(file, 8, 28 + |Concat(sections)|);
  }

  // ---- What is written ---------------------------------------------------------------------------

  datatype Column = Column(height: byte, whiteness: byte)

  datatype ColorEntry = ColorEntry(red: byte, green: byte, blue: byte, height: byte)

  datatype PreviewColumn = PreviewColumn(height: byte, luminance: byte, blue: byte, red: byte, green: byte, blue2: byte)

  datatype Waveform = Waveform(preview: seq<Column>, colorPreview: seq<PreviewColumn>, detail: seq<ColorEntry>)

  // A float to u32 cast: towards zero, saturating.
  function AsU32(t: real): nat {
    if t < 0.0 then 0 else if t.Floor >= U32_LIMIT then U32_LIMIT - 1 else t.Floor
  }

  function PathUnits(path: string): seq<nat> {
    Utf16(path) + [0]
  }

  function PpthSection(path: string): bytes {
    var units := PathUnits(path);
    Section(PPTH, 16, 16 + 2 * |units|, BE32(2 * |units|) + Entries(|units|, i => UnitAt(units, i)))
  }

  function UnitAt(units: seq<nat>, i: nat): (r: bytes)
    ensures |r| == 2
  {
    BE16(if i < |units| then units[i] else 0)
  }

  // Seek point i of 400: saturating multiplication in u64, then truncated to u32.
  function SeekPoint(size: nat, i: nat): nat {
    Least(size * i, 0xFFFF_FFFF_FFFF_FFFF) / 400 % U32_LIMIT
  }

  function PvbrSection(size: nat, samples: nat): bytes {
    Section(PVBR, 16, 1620, BE32(0) + Entries(400, i => BE32(SeekPoint(size, i))) + BE32(samples % U32_LIMIT))
  }

  function BeatEntry(beats: seq<BeatGrid.Beat>, i: nat): (r: bytes)
    ensures |r| == 8
  {
    if i < |beats| then BE16(beats[i].number) + BE16(beats[i].tempo100) + BE32(AsU32(beats[i].time)) else Zeros(8)
  }

  function PqtzSection(beats: seq<BeatGrid.Beat>): bytes {
    Section(PQTZ, 24, 24 + 8 * |beats|,
            BE32(0) + BE32(0x8_0000) + BE32(|beats|) + Entries(|beats|, i => BeatEntry(beats, i)))
  }

  // ((whiteness & 7) << 5) | (height & 0x1F)
  function ColumnByte(c: Column): byte {
    c.whiteness as int % 8 * 32 + c.height as int % 32
  }

  function ColumnAt(columns: seq<Column>, i: nat): byte {
    if i < |columns| then ColumnByte(columns[i]) else 0
  }

  function PwavSection(columns: seq<Column>): bytes {
    Section(PWAV, 20, 420, BE32(400) + BE32(0x1_0000) + Entries(400, i => [ColumnAt(columns, i)]))
  }

  function Larger(a: byte, b: byte): byte {
    if b > a then b else a
  }

  // The largest of the first j columns of a group of four; missing columns count as none.
  function Peak(columns: seq<Column>, group: nat, j: nat): byte {
    if j == 0 then 0
    else if group * 4 + j - 1 < |columns| then
      Larger(Peak(columns, group, j - 1), ColumnByte(columns[group * 4 + j - 1]))
    else Peak(columns, group, j - 1)
  }

  function Pwv2Section(columns: seq<Column>): bytes {
    Section(PWV2, 20, 120, BE32(100) + BE32(0x1_0000) + Entries(100, i => [Peak(columns, i, 4)]))
  }

  function EmptyPcob(cueType: nat): bytes {
    Section(PCOB, 24, 24, BE32(cueType) + BE16(0) + BE16(0) + BE32(0xFFFF_FFFF))
  }

  function EmptyPco2(cueType: nat): bytes {
    Section(PCO2, 20, 20, BE32(cueType) + BE16(0) + BE16(0))
  }

  // Brightness is the mean of the three bands, at most 7.
  function GreyByte(e: ColorEntry): byte {
    Least((e.red as int + e.green as int + e.blue as int) / 3, 7) * 32 + e.height as int % 32
  }

  function GreyAt(detail: seq<ColorEntry>, i: nat): byte {
    if i < |detail| then GreyByte(detail[i]) else 0
  }

  function Pwv3Section(detail: seq<ColorEntry>): bytes {
    Section(PWV3, 24, 24 + |detail|,
            BE32(1) + BE32(|detail|) + BE32(0x96_0000) + Entries(|detail|, i => [GreyAt(detail, i)]))
  }

  function ColorValue(e: ColorEntry): nat {
    e.red as int % 8 * 8192 + e.green as int % 8 * 1024 + e.blue as int % 8 * 128 + e.height as int % 32 * 4
  }

  function ColorAt(detail: seq<ColorEntry>, i: nat): (r: bytes)
    ensures |r| == 2
  {
    BE16(if i < |detail| then ColorValue(detail[i]) else 0)
  }

  function Pwv5Section(detail: seq<ColorEntry>): bytes {
    Section(PWV5, 24, 24 + 2 * |detail|,
            BE32(2) + BE32(|detail|) + BE32(0x96_0305) + Entries(|detail|, i => ColorAt(detail, i)))
  }

  function PreviewAt(columns: seq<PreviewColumn>, i: nat): (r: bytes)
    ensures |r| == 6
  {
    if i < |columns| then
      var c := columns[i];
      [c.height as int % 128, c.luminance as int % 128, c.blue as int % 128, c.red as int % 128,
        c.green as int % 128, c.blue2 as int % 128]
    else [0, 0, 0, 0, 0, 0]
  }

  function Pwv4Section(columns: seq<PreviewColumn>): bytes {
    Section(PWV4, 24, 7224, BE32(6) + BE32(1200) + BE32(0) + Entries(1200, i => PreviewAt(columns, i)))
  }

  function BandsAt(columns: seq<PreviewColumn>, i: nat): (r: bytes)
    ensures |r| == 3
  {
    if i < |columns| then [columns[i].blue as int % 128, columns[i].red as int % 128, columns[i].green as int % 128]
      else [0, 0, 0]
  }

  function Pwv6Section(columns: seq<PreviewColumn>): bytes {
    Section(PWV6, 20, 3620, BE32(3) + BE32(1200) + Entries(1200, i => BandsAt(columns, i)))
  }

  // A 3-bit band scaled by a 5-bit height to at most 127.
  function Scaled(band: byte, height: byte): byte {
    Least((band as int % 8) * (height as int % 32) * 127 / 217, 127)
  }

  function ScaledAt(detail: seq<ColorEntry>, i: nat): (r: bytes)
    ensures |r| == 3
  {
    if i < |detail| then
      var e := detail[i];
      [Scaled(e.red, e.height), Scaled(e.green, e.height), Scaled(e.blue, e.height)]
    else [0, 0, 0]
  }

  function Pwv7Section(detail: seq<ColorEntry>): bytes {
    Section(PWV7, 24, 24 + 3 * |detail|,
            BE32(3) + BE32(|detail|) + BE32(0x96_0000) + Entries(|detail|, i => ScaledAt(detail, i)))
  }

  function PwvcSection(): bytes {
    Section(PWVC, 14, 20, BE16(0) + BE16(100) + BE16(100) + BE16(100))
  }

  // ---- Each section declares its length -------------------------------------------------------------

  lemma PpthFramed(path: string)
    requires |PpthSection(path)| < U32_LIMIT
    ensures Framed(PpthSection(path), PPTH)
  {
    hide Section, Framed, PathUnits;
    var units := PathUnits(path);
    EntriesLength(|units|, i => UnitAt(units, i), 2);
    SectionIsFramed(PPTH, 16, BE32(2 * |units|) + Entries(|units|, i => UnitAt(units, i)));
  }

  lemma PvbrFramed(size: nat, samples: nat)
    ensures Framed(PvbrSection(size, samples), PVBR)
  {
    hide Section, Framed, SeekPoint;
    EntriesLength(400, i => BE32(SeekPoint(size, i)), 4);
    SectionIsFramed(PVBR, 16, BE32(0) + Entries(400, i => BE32(SeekPoint(size, i))) + BE32(samples % U32_LIMIT));
  }

  lemma PqtzFramed(beats: seq<BeatGrid.Beat>)
    requires |PqtzSection(beats)| < U32_LIMIT
    ensures Framed(PqtzSection(beats), PQTZ)
  {
    hide Section, Framed, BeatEntry;
    EntriesLength(|beats|, i => BeatEntry(beats, i), 8);
    SectionIsFramed(PQTZ, 24, BE32(0) + BE32(0x8_0000) + BE32(|beats|) + Entries(|beats|, i => BeatEntry(beats, i)));
  }

  lemma PreviewsFramed(columns: seq<Column>)
    ensures Framed(PwavSection(columns), PWAV) && Framed(Pwv2Section(columns), PWV2)
  {
    hide Section, Framed, ColumnAt, Peak;
    EntriesLength(400, i => [ColumnAt(columns, i)], 1);
    SectionIsFramed(PWAV, 20, BE32(400) + BE32(0x1_0000) + Entries(400, i => [ColumnAt(columns, i)]));
    EntriesLength(100, i => [Peak(columns, i, 4)], 1);
    SectionIsFramed(PWV2, 20, BE32(100) + BE32(0x1_0000) + Entries(100, i => [Peak(columns, i, 4)]));
  }

  lemma EmptyCuesFramed(cueType: nat)
    ensures Framed(EmptyPcob(cueType), PCOB) && Framed(EmptyPco2(cueType), PCO2) && Framed(PwvcSection(), PWVC)
  {
    hide Section, Framed;
    SectionIsFramed(PCOB, 24, BE32(cueType) + BE16(0) + BE16(0) + BE32(0xFFFF_FFFF));
    SectionIsFramed(PCO2, 20, BE32(cueType) + BE16(0) + BE16(0));
    SectionIsFramed(PWVC, 14, BE16(0) + BE16(100) + BE16(100) + BE16(100));
  }

  lemma Pwv3Framed(detail: seq<ColorEntry>)
    requires |Pwv3Section(detail)| < U32_LIMIT
    ensures Framed(Pwv3Section(detail), PWV3)
  {
    hide Section, Framed, GreyAt;
    EntriesLength(|detail|, i => [GreyAt(detail, i)], 1);
    SectionIsFramed(PWV3, 24, BE32(1) + BE32(|detail|) + BE32(0x96_0000) + Entries(|detail|, i => [GreyAt(detail, i)]));
  }

  lemma Pwv5Framed(detail: seq<ColorEntry>)
    requires |Pwv5Section(detail)| < U32_LIMIT
    ensures Framed(Pwv5Section(detail), PWV5)
  {
    hide Section, Framed, ColorAt;
    EntriesLength(|detail|, i => ColorAt(detail, i), 2);
    SectionIsFramed(PWV5, 24, BE32(2) + BE32(|detail|) + BE32(0x96_0305) + Entries(|detail|, i => ColorAt(detail, i)));
  }

  lemma Pwv7Framed(detail: seq<ColorEntry>)
    requires |Pwv7Section(detail)| < U32_LIMIT
    ensures Framed(Pwv7Section(detail), PWV7)
  {
    hide Section, Framed, ScaledAt;
    EntriesLength(|detail|, i => ScaledAt(detail, i), 3);
    SectionIsFramed(PWV7, 24, BE32(3) + BE32(|detail|) + BE32(0x96_0000) + Entries(|detail|, i => ScaledAt(detail, i)));
  }

  lemma ColorPreviewsFramed(columns: seq<PreviewColumn>)
    ensures Framed(Pwv4Section(columns), PWV4) && Framed(Pwv6Section(columns), PWV6)
  {
    hide Section, Framed, PreviewAt, BandsAt;
    EntriesLength(1200, i => PreviewAt(columns, i), 6);
    SectionIsFramed(PWV4, 24, BE32(6) + BE32(1200) + BE32(0) + Entries(1200, i => PreviewAt(columns, i)));
    EntriesLength(1200, i => BandsAt(columns, i), 3);
    SectionIsFramed(PWV6, 20, BE32(3) + BE32(1200) + Entries(1200, i => BandsAt(columns, i)));
  }

  // ---- Cues ------------------------------------------------------------------------------------------

  // kind: the cue type's number in each of the two formats; color as chosen for the slot.
  datatype Cue = Cue(hot: byte, basicKind: nat, extendedKind: nat, time: real, loopLength: real,
    comment: Option<bytes>, color: bytes)

  function LoopEnd(c: Cue): nat {
    if c.loopLength > 0.0 then AsU32(c.time + c.loopLength) else 0xFFFF_FFFF
  }

  function BasicCueAt(cues: seq<Cue>, i: nat): (r: bytes)
    ensures |r| == 24
  {
    if i < |cues| then
      [0x50, 0x43, 0x50, 0x01] + BE32(20) + BE32(cues[i].hot as int) + BE32(cues[i].basicKind)
        + BE32(AsU32(cues[i].time)) + BE32(LoopEnd(cues[i]))
    else Zeros(24)
  }

  function PcobSection(cues: seq<Cue>): bytes {
    Section(PCOB, 24, 24 + 24 * |cues|,
            BE32(1) + BE16(0) + BE16(|cues|) + BE32(0xFFFF_FFFF) + Entries(|cues|, i => BasicCueAt(cues, i)))
  }

  // What an extended entry is declared to take.
  function DeclaredLength(c: Cue, hot: bool): nat {
    (if hot then 56 else 40) + match c.comment case Some(text) => |text| + 4 case None => 0
  }

  function ExtendedCue(c: Cue, hot: bool): bytes {
    [0x50, 0x43, 0x50, 0x32] + BE32(DeclaredLength(c, hot) - 4) + BE32(c.hot as int) + BE32(c.extendedKind)
    + BE32(AsU32(c.time)) + BE32(LoopEnd(c)) + BE32(0) + Zeros(8)
    + (match c.comment case Some(text) => BE32(|text| + 1) + text + [0] case None => [])
    + if hot then c.color + Zeros(4) else []
  }

  function ExtendedCueAt(cues: seq<Cue>, hot: bool, i: nat): bytes {
    if i < |cues| then ExtendedCue(cues[i], hot) else []
  }

  function DeclaredTotal(cues: seq<Cue>, hot: bool): nat {
    if cues == [] then 0 else DeclaredTotal(cues[..|cues| - 1], hot) + DeclaredLength(cues[|cues| - 1], hot)
  }

  function Pco2Section(cues: seq<Cue>, hot: bool): bytes {
    Section(PCO2, 16, (20 + DeclaredTotal(cues, hot)) % U32_LIMIT,
            BE32(if hot then 1 else 0) + BE16(0) + BE16(|cues|) + Entries(|cues|, i => ExtendedCueAt(cues, hot, i)))
  }

  function Kept(cues: seq<Cue>, hot: bool): seq<Cue> {
    if cues == [] then []
    else Kept(cues[..|cues| - 1], hot) + if (cues[|cues| - 1].hot > 0) == hot then [cues[|cues| - 1]] else []
  }

  // The extended sections for some cues: hot cues first, then memory cues.
  function Pco2Sections(cues: seq<Cue>): seq<bytes> {
    (if Kept(cues, true) != [] then [Pco2Section(Kept(cues, true), true)] else [])
    + if Kept(cues, false) != [] then [Pco2Section(Kept(cues, false), false)] else []
  }

  // ---- The three files ---------------------------------------------------------------------------------

  function DatSections(beats: seq<BeatGrid.Beat>, w: Waveform, path: string, size: nat, samples: nat): seq<bytes> {
    [PpthSection(path), PvbrSection(size, samples), PqtzSection(beats), PwavSection(w.preview), Pwv2Section(w.preview),
     EmptyPcob(1), EmptyPcob(0)]
  }

  const DAT_TAGS: seq<bytes> := [PPTH, PVBR, PQTZ, PWAV, PWV2, PCOB, PCOB]

  function TwoExSections(w: Waveform, path: string): seq<bytes> {
    [PpthSection(path), Pwv7Section(w.detail), Pwv6Section(w.colorPreview), PwvcSection()]
  }

  const TWO_EX_TAGS: seq<bytes> := [PPTH, PWV7, PWV6, PWVC]

  function ExtSections(w: Waveform, path: string, cues: seq<Cue>): seq<bytes> {
    [PpthSection(path), Pwv3Section(w.detail), if cues == [] then EmptyPcob(1) else PcobSection(cues), EmptyPcob(0)]
    + (if cues == [] then [EmptyPco2(1)] else Pco2Sections(cues))
    + [EmptyPco2(0), Pwv5Section(w.detail), Pwv4Section(w.colorPreview)]
  }

  const EXT_TAGS: seq<bytes> := [PPTH, PWV3, PCOB, PCOB, PCO2, PCO2, PWV5, PWV4]

  lemma {:induction false} PartLength(parts: seq<bytes>, k: nat)
    requires k < |parts|
    ensures |parts[k]| <= |Concat(parts)|
  {
    if k > 0 { PartLength(parts[1..], k - 1); }
  }

  // For every grid, waveform and path the .DAT's sections tile the file: hopping by
  // len_tag from byte 28 visits exactly the seven tags in order and ends at len_file.
  lemma DatTiles(beats: seq<BeatGrid.Beat>, w: Waveform, path: string, size: nat, samples: nat)
    requires 28 + |Concat(DatSections(beats, w, path, size, samples))| < U32_LIMIT
    ensures Tiles(FileOf(DatSections(beats, w, path, size, samples)), DatSections(beats, w, path, size, samples),
      DAT_TAGS)
  {
    hide PpthSection, PvbrSection, PqtzSection, PwavSection, Pwv2Section, EmptyPcob, Framed, Tiles, Concat;
    var sections := DatSections(beats, w, path, size, samples);
    PartLength(sections, 0);
    PartLength(sections, 2);
    PpthFramed(path);
    PvbrFramed(size, samples);
    PqtzFramed(beats);
    PreviewsFramed(w.preview);
    EmptyCuesFramed(1);
    EmptyCuesFramed(0);
    FramedSectionsTile(sections, DAT_TAGS);
  }

  lemma TwoExTiles(w: Waveform, path: string)
    requires 28 + |Concat(TwoExSections(w, path))| < U32_LIMIT
    ensures Tiles(FileOf(TwoExSections(w, path)), TwoExSections(w, path), TWO_EX_TAGS)
  {
    hide PpthSection, Pwv7Section, Pwv6Section, PwvcSection, Framed, Tiles, Concat;
    var sections := TwoExSections(w, path);
    PartLength(sections, 0);
    PartLength(sections, 1);
    PpthFramed(path);
    Pwv7Framed(w.detail);
    ColorPreviewsFramed(w.colorPreview);
    EmptyCuesFramed(0);
    FramedSectionsTile(sections, TWO_EX_TAGS);
  }

  lemma ExtWithoutCuesTiles(w: Waveform, path: string)
    requires 28 + |Concat(ExtSections(w, path, []))| < U32_LIMIT
    ensures Tiles(FileOf(ExtSections(w, path, [])), ExtSections(w, path, []), EXT_TAGS)
  {
    hide PpthSection, Pwv3Section, Pwv4Section, Pwv5Section, EmptyPcob, EmptyPco2, Framed, Tiles, Concat;
    var sections := ExtSections(w, path, []);
    PartLength(sections, 0);
    PartLength(sections, 1);
    PartLength(sections, 6);
    PpthFramed(path);
    Pwv3Framed(w.detail);
    Pwv5Framed(w.detail);
    ColorPreviewsFramed(w.colorPreview);
    EmptyCuesFramed(1);
    EmptyCuesFramed(0);
    FramedSectionsTile(sections, EXT_TAGS);
  }

  // ---- With cues the .EXT does not tile -----------------------------------------------------------------

  // Every extended entry declares more bytes than it writes, by 3 to 12.
  lemma DeclaresTooMuch(c: Cue, hot: bool)
    requires |c.color| == 4
    ensures |ExtendedCue(c, hot)| + 3 <= DeclaredLength(c, hot) <= |ExtendedCue(c, hot)| + 12
    ensures |ExtendedCue(c, hot)| >= 36
  {}

  predicate ColorsFit(cues: seq<Cue>) {
    forall i :: 0 <= i < |cues| ==> |cues[i].color| == 4
  }

  lemma {:induction false} TotalTooMuch(cues: seq<Cue>, hot: bool, n: nat)
    requires ColorsFit(cues) && n <= |cues|
    ensures var written := |Entries(n, i => ExtendedCueAt(cues, hot, i))|;
      written + 3 * n <= DeclaredTotal(cues[..n], hot) <= written + 12 * n && written >= 36 * n
  {
    hide ExtendedCue, DeclaredLength;
    if n > 0 {
      TotalTooMuch(cues, hot, n - 1);
      assert cues[..n][..n - 1] == cues[..n - 1];
      DeclaresTooMuch(cues[n - 1], hot);
    }
  }

  // So the section's declared length is never its real one, even after truncation.
  lemma Pco2LiesAboutItsLength(cues: seq<Cue>, hot: bool)
    requires cues != [] && ColorsFit(cues) && |Pco2Section(cues, hot)| < U32_LIMIT
    ensures 12 <= |Pco2Section(cues, hot)| && GetBE32(Pco2Section(cues, hot), 8) != |Pco2Section(cues, hot)|
  {
    hide BE32, GetBE32, ExtendedCue, DeclaredLength;
    var s := Pco2Section(cues, hot);
    var entries := Entries(|cues|, i => ExtendedCueAt(cues, hot, i));
    TotalTooMuch(cues, hot, |cues|);
    assert cues[..|cues|] == cues;
    var declared := 20 + DeclaredTotal(cues, hot);
    assert s[8..12] == BE32(declared % U32_LIMIT);
    ReadBE32(s, 8, declared % U32_LIMIT);
    assert |s| == 20 + |entries| && |s| < declared < |s| + U32_LIMIT;
  }

  lemma {:induction false} StartsAppend(a: seq<bytes>, b: seq<bytes>, at: nat)
    ensures Starts(a + b, at) == Starts(a, at) + Starts(b, at + |Concat(a)|)
    decreases |a|
  {
    if a == [] {
      assert a + b == b;
    } else {
      assert (a + b)[1..] == a[1..] + b;
      StartsAppend(a[1..], b, at + |a[0]|);
    }
  }

  lemma {:induction false} HopsPastFramed(pre: bytes, sections: seq<bytes>, tags: seq<bytes>, post: bytes)
    requires AllFramed(sections, tags)
    ensures Hops(pre + Concat(sections) + post, |pre|)
      == Starts(sections, |pre|) + Hops(pre + Concat(sections) + post, |pre| + |Concat(sections)|)
    decreases |sections|
  {
    hide GetBE32;
    if sections != [] {
      var s := sections[0];
      var file := pre + Concat(sections) + post;
      assert Framed(s, tags[0]);
      HopsPastFramed(pre + s, sections[1..], tags[1..], post);
      assert file == (pre + s) + Concat(sections[1..]) + post;
      FramedInFile(pre, s, Concat(sections[1..]) + post, tags[0]);
      assert file == pre + s + (Concat(sections[1..]) + post);
    }
  }

  // One section with a wrong length, followed by another, is enough to go astray.
  lemma LyingSectionBreaksTiling(sections: seq<bytes>, k: nat, front: seq<bytes>, tags: seq<bytes>)
    requires k + 1 < |sections| && AllFramed(sections[..k], front)
    requires 12 <= |sections[k]| && GetBE32(sections[k], 8) != |sections[k]|
    ensures !Tiles(FileOf(sections), sections, tags)
  {
    hide GetBE32, PmaiHeader, Concat, Hops, HopsEnd, Starts, AllFramed;
    var header := PmaiHeader(28 + |Concat(sections)|);
    var head, s, rest := sections[..k], sections[k], sections[k + 1..];
    assert sections == head + ([s] + rest);
    ConcatAppend(head, [s] + rest);
    ConcatCons(s, rest);
    var file := header + Concat(head) + (s + Concat(rest));
    assert FileOf(sections) == file;
    HopsPastFramed(header, head, front, s + Concat(rest));
    StartsAppend(head, [s] + rest, 28);
    var at := 28 + |Concat(head)|;
    assert file[at + 8] == s[8] && file[at + 9] == s[9] && file[at + 10] == s[10] && file[at + 11] == s[11];
    SameBE32(file, at + 8, s, 8);
    HopsGoAstray(file, at, s, rest);
    AfterCommon(Starts(head, 28), Hops(file, at), Starts([s] + rest, at));
  }

  lemma ConcatCons(s: bytes, rest: seq<bytes>)
    ensures Concat([s] + rest) == s + Concat(rest)
  {
    assert ([s] + rest)[1..] == rest;
  }

  lemma HopsGoAstray(file: bytes, at: nat, s: bytes, rest: seq<bytes>)
    requires at + 12 <= |file| && GetBE32(file, at + 8) != |s| && rest != []
    ensures Hops(file, at) != Starts([s] + rest, at)
  {
    hide GetBE32;
    var starts := Starts([s] + rest, at);
    assert ([s] + rest)[1..] == rest;
    assert starts[1] == Starts(rest, at + |s|)[0] == at + |s|;
    var next := at + GetBE32(file, at + 8);
    HopsStart(file, next);
    assert |Hops(file, at)| >= 2 ==> Hops(file, at)[1] == Hops(file, next)[0] == next;
  }

  lemma SameBE32(a: bytes, i: nat, b: bytes, j: nat)
    requires i + 4 <= |a| && j + 4 <= |b| && a[i] == b[j] && a[i + 1] == b[j + 1] && a[i + 2] == b[j + 2]
    requires a[i + 3] == b[j + 3]
    ensures GetBE32(a, i) == GetBE32(b, j)
  {}

  lemma HopsStart(file: bytes, at: nat)
    ensures Hops(file, at) == [] || Hops(file, at)[0] == at
  {}

  lemma AfterCommon(a: seq<nat>, b: seq<nat>, c: seq<nat>)
    requires b != c
    ensures a + b != a + c
  {
    assert (a + b)[|a|..] == b && (a + c)[|a|..] == c;
  }

  lemma SomeKept(cues: seq<Cue>)
    requires cues != []
    ensures Kept(cues, true) != [] || Kept(cues, false) != []
  {}

  lemma {:induction false} KeptColors(cues: seq<Cue>, hot: bool)
    requires ColorsFit(cues)
    ensures ColorsFit(Kept(cues, hot))
  {
    if cues != [] { KeptColors(cues[..|cues| - 1], hot); }
  }

  lemma PcobFramed(cues: seq<Cue>)
    requires |PcobSection(cues)| < U32_LIMIT
    ensures Framed(PcobSection(cues), PCOB)
  {
    hide Section, Framed, BasicCueAt;
    EntriesLength(|cues|, i => BasicCueAt(cues, i), 24);
    SectionIsFramed(PCOB, 24, BE32(1) + BE16(0) + BE16(|cues|) + BE32(0xFFFF_FFFF)
      + Entries(|cues|, i => BasicCueAt(cues, i)));
  }

  // The .EXT tiles exactly when the track has no cues.
  lemma ExtTilesExactlyWithoutCues(w: Waveform, path: string, cues: seq<Cue>)
    requires ColorsFit(cues) && 28 + |Concat(ExtSections(w, path, cues))| < U32_LIMIT
    ensures (exists tags :: Tiles(FileOf(ExtSections(w, path, cues)), ExtSections(w, path, cues), tags)) <==> cues == []
  {
    hide PpthSection, Pwv3Section, Pwv4Section, Pwv5Section, EmptyPcob, EmptyPco2, Framed, Tiles, Concat,
         PcobSection, Pco2Section, GetBE32, Kept, ColorsFit;
    var sections := ExtSections(w, path, cues);
    if cues == [] {
      ExtWithoutCuesTiles(w, path);
    } else {
      forall tags: seq<bytes>
        ensures !Tiles(FileOf(sections), sections, tags)
      {
        ExtWithCuesDoesNotTile(w, path, cues, tags);
      }
    }
  }

  lemma ExtWithCuesDoesNotTile(w: Waveform, path: string, cues: seq<Cue>, tags: seq<bytes>)
    requires cues != [] && ColorsFit(cues) && 28 + |Concat(ExtSections(w, path, cues))| < U32_LIMIT
    ensures !Tiles(FileOf(ExtSections(w, path, cues)), ExtSections(w, path, cues), tags)
  {
    hide PpthSection, Pwv3Section, Pwv4Section, Pwv5Section, EmptyPcob, EmptyPco2, Framed, Concat, PcobSection,
         Pco2Section, GetBE32, Kept, ColorsFit, Tiles, Hops, HopsEnd, Starts, FileOf;
    var sections := ExtSections(w, path, cues);
    var front: seq<bytes> := [PPTH, PWV3, PCOB, PCOB];
    SomeKept(cues);
    var hot := Kept(cues, true) != [];
    KeptColors(cues, hot);
    assert sections[4] == Pco2Section(Kept(cues, hot), hot);
    PartLength(sections, 0);
    PartLength(sections, 1);
    PartLength(sections, 2);
    PartLength(sections, 4);
    PpthFramed(path);
    Pwv3Framed(w.detail);
    PcobFramed(cues);
    EmptyCuesFramed(0);
    Pco2LiesAboutItsLength(Kept(cues, hot), hot);
    assert AllFramed(sections[..4], front);
    LyingSectionBreaksTiling(sections, 4, front, tags);
  }
}
