// What a reader gets back from ANLZ sections: the beat grid, the path, the seek points
// and the waveform bytes.
module AnlzReads {
  import opened Bytes
  import opened DeviceString
  import opened Anlz
  import BeatGrid

  // ---- Beat grid ---------------------------------------------------------------------------------

  predicate BeatFits(b: BeatGrid.Beat) {
    b.number < U16_LIMIT && b.tempo100 < U16_LIMIT
  }

  // The number of beats and each beat's place in the bar, tempo and time in whole
  // milliseconds read back from their fixed positions.
  lemma PqtzReads(beats: seq<BeatGrid.Beat>, i: nat)
    requires |PqtzSection(beats)| < U32_LIMIT && i < |beats| && BeatFits(beats[i])
    ensures var s := PqtzSection(beats);
      && 24 + 8 * i + 8 <= |s| && GetBE32(s, 20) == |beats|
      && GetBE16(s, 24 + 8 * i) == beats[i].number && GetBE16(s, 24 + 8 * i + 2) == beats[i].tempo100
      && GetBE32(s, 24 + 8 * i + 4) == AsU32(beats[i].time)
  {
    hide BE16, BE32, GetBE16, GetBE32, AsU32;
    var s := PqtzSection(beats);
    var data := Entries(|beats|, k => BeatEntry(beats, k));
    EntryAt(|beats|, k => BeatEntry(beats, k), 8, i);
    assert s[20..24] == BE32(|beats|);
    ReadBE32(s, 20, |beats|);
    assert s[24..] == data;
    var entry := BeatEntry(beats, i);
    assert s[24 + 8 * i..24 + 8 * i + 8] == data[i * 8..(i + 1) * 8] == entry;
    SubSlice(s, 24 + 8 * i, 24 + 8 * i + 8, 0, 2);
    SubSlice(s, 24 + 8 * i, 24 + 8 * i + 8, 2, 4);
    SubSlice(s, 24 + 8 * i, 24 + 8 * i + 8, 4, 8);
    assert entry[0..2] == BE16(beats[i].number) && entry[2..4] == BE16(beats[i].tempo100) &&
      entry[4..8] == BE32(AsU32(beats[i].time));
    ReadBE16(s, 24 + 8 * i, beats[i].number);
    ReadBE16(s, 24 + 8 * i + 2, beats[i].tempo100);
    TimeFits(beats[i].time);
    ReadBE32(s, 24 + 8 * i + 4, AsU32(beats[i].time));
  }

  lemma TimeFits(t: real)
    ensures AsU32(t) < U32_LIMIT
  {}

  // ---- Entries of a section -----------------------------------------------------------------------

  // Entry i of a section's data is where its size puts it.
  lemma EntryInSection(tag: bytes, lenHeader: nat, lenTag: nat, fields: bytes, n: nat, f: nat -> bytes, size: nat,
                       suffix: bytes, i: nat)
    requires |tag| == 4 && i < n && forall k :: 0 <= k < n ==> |f(k)| == size
    ensures |Entries(n, f)| == n * size && 0 <= i * size <= (i + 1) * size <= n * size
    ensures var s, at := Section(tag, lenHeader, lenTag, fields + Entries(n, f) + suffix), 12 + |fields|;
      |s| == at + n * size + |suffix| && s[at + i * size..at + (i + 1) * size] == f(i) && s[|s| - |suffix|..] == suffix
  {
    hide BE32;
    EntryAt(n, f, size, i);
    var s, at := Section(tag, lenHeader, lenTag, fields + Entries(n, f) + suffix), 12 + |fields|;
    assert s[at..at + n * size] == Entries(n, f);
    SubSlice(s, at, at + n * size, i * size, (i + 1) * size);
  }

  // The same for a section that ends with its entries.
  lemma LastEntries(tag: bytes, lenHeader: nat, lenTag: nat, fields: bytes, n: nat, f: nat -> bytes, size: nat, i: nat)
    requires |tag| == 4 && i < n && forall k :: 0 <= k < n ==> |f(k)| == size
    ensures 0 <= i * size <= (i + 1) * size <= n * size
    ensures var s, at := Section(tag, lenHeader, lenTag, fields + Entries(n, f)), 12 + |fields|;
      |s| == at + n * size && s[at + i * size..at + (i + 1) * size] == f(i)
  {
    hide Section, Entries;
    EntryInSection(tag, lenHeader, lenTag, fields, n, f, size, [], i);
    assert fields + Entries(n, f) + [] == fields + Entries(n, f);
  }

  // Seek offset i and, after the last, the sample count.
  lemma PvbrReads(size: nat, samples: nat, i: nat)
    requires i < 400
    ensures var s := PvbrSection(size, samples);
      |s| == 1620 && GetBE32(s, 16 + 4 * i) == SeekPoint(size, i) && GetBE32(s, 1616) == samples % U32_LIMIT
  {
    hide SeekPoint, BE32, GetBE32, Section, Entries;
    var s := PvbrSection(size, samples);
    EntryInSection(PVBR, 16, 1620, BE32(0), 400, k => BE32(SeekPoint(size, k)), 4, BE32(samples % U32_LIMIT), i);
    assert s[16 + 4 * i..16 + 4 * i + 4] == BE32(SeekPoint(size, i));
    PointFits(size, i);
    ReadBE32(s, 16 + 4 * i, SeekPoint(size, i));
    ReadBE32(s, 1616, samples % U32_LIMIT);
  }

  lemma PointFits(size: nat, i: nat)
    ensures SeekPoint(size, i) < U32_LIMIT
  {}

  // Preview column i, and overview column i.
  lemma PreviewsRead(columns: seq<Column>, i: nat)
    ensures i < 400 ==> |PwavSection(columns)| == 420 && PwavSection(columns)[20 + i] == ColumnAt(columns, i)
    ensures i < 100 ==> |Pwv2Section(columns)| == 120 && Pwv2Section(columns)[20 + i] == Peak(columns, i, 4)
  {
    hide BE32, Section, Entries, ColumnAt, Peak;
    if i < 400 {
      ByteEntry(PWAV, 20, 420, BE32(400) + BE32(0x1_0000), 400, k => [ColumnAt(columns, k)], i);
    }
    if i < 100 {
      ByteEntry(PWV2, 20, 120, BE32(100) + BE32(0x1_0000), 100, k => [Peak(columns, k, 4)], i);
    }
  }

  lemma ByteEntry(tag: bytes, lenHeader: nat, lenTag: nat, fields: bytes, n: nat, f: nat -> bytes, i: nat)
    requires |tag| == 4 && i < n && forall k :: 0 <= k < n ==> |f(k)| == 1
    ensures var s, at := Section(tag, lenHeader, lenTag, fields + Entries(n, f)), 12 + |fields|;
      |s| == at + n && s[at + i] == f(i)[0]
  {
    hide Section, Entries;
    LastEntries(tag, lenHeader, lenTag, fields, n, f, 1, i);
    var s, at := Section(tag, lenHeader, lenTag, fields + Entries(n, f)), 12 + |fields|;
    assert s[at + i] == s[at + i * 1..at + (i + 1) * 1][0];
  }

  // Detail entry i: brightness and height in one byte.
  lemma GreyDetailReads(detail: seq<ColorEntry>, i: nat)
    requires i < |detail|
    ensures |Pwv3Section(detail)| == 24 + |detail| && Pwv3Section(detail)[24 + i] == GreyByte(detail[i])
  {
    hide BE32, Section, Entries, GreyByte;
    var n := |detail|;
    ByteEntry(PWV3, 24, 24 + n, BE32(1) + BE32(n) + BE32(0x96_0000), n, k => [GreyAt(detail, k)], i);
  }

  // Detail entry i: the packed colours and height.
  lemma ColorDetailReads(detail: seq<ColorEntry>, i: nat)
    requires i < |detail|
    ensures |Pwv5Section(detail)| == 24 + 2 * |detail|
    ensures GetBE16(Pwv5Section(detail), 24 + 2 * i) == ColorValue(detail[i])
  {
    hide BE16, BE32, GetBE16, Section, Entries, ColorValue;
    var n := |detail|;
    var fields := BE32(2) + BE32(n) + BE32(0x96_0305);
    LastEntries(PWV5, 24, 24 + 2 * n, fields, n, k => ColorAt(detail, k), 2, i);
    ColorEntryReads(Pwv5Section(detail), 24 + 2 * i, detail[i]);
  }

  lemma ColorEntryReads(s: bytes, at: nat, e: ColorEntry)
    requires at + 2 <= |s| && s[at..at + 2] == BE16(ColorValue(e))
    ensures GetBE16(s, at) == ColorValue(e)
  {
    hide BE16, GetBE16, ColorValue;
    WaveformBytesRead(Column(0, 0), e);
    ReadBE16(s, at, ColorValue(e));
  }

  // Detail entry i: the three bands scaled by the height.
  lemma BandDetailReads(detail: seq<ColorEntry>, i: nat)
    requires i < |detail|
    ensures |Pwv7Section(detail)| == 24 + 3 * |detail|
    ensures var e := detail[i];
      Pwv7Section(detail)[24 + 3 * i..24 + 3 * i + 3]
      == [Scaled(e.red, e.height), Scaled(e.green, e.height), Scaled(e.blue, e.height)]
  {
    hide BE32, Section, Entries, Scaled;
    var n := |detail|;
    var fields := BE32(3) + BE32(n) + BE32(0x96_0000);
    LastEntries(PWV7, 24, 24 + 3 * n, fields, n, k => ScaledAt(detail, k), 3, i);
  }

  // Colour preview column i: six 7-bit values, and three of them in the other section.
  lemma ColorPreviewsRead(columns: seq<PreviewColumn>, i: nat)
    requires i < 1200
    ensures |Pwv4Section(columns)| == 7224 && Pwv4Section(columns)[24 + 6 * i..24 + 6 * i + 6] == PreviewAt(columns, i)
    ensures |Pwv6Section(columns)| == 3620 && Pwv6Section(columns)[20 + 3 * i..20 + 3 * i + 3] == BandsAt(columns, i)
  {
    hide BE32, Section, Entries, PreviewAt, BandsAt;
    LastEntries(PWV4, 24, 7224, BE32(6) + BE32(1200) + BE32(0), 1200, k => PreviewAt(columns, k), 6, i);
    LastEntries(PWV6, 20, 3620, BE32(3) + BE32(1200), 1200, k => BandsAt(columns, k), 3, i);
  }

  // Basic cue i: its slot, kind, time and loop end.
  lemma PcobReads(cues: seq<Cue>, i: nat)
    requires i < |cues| && cues[i].basicKind < U32_LIMIT
    ensures var s, at, c := PcobSection(cues), 24 + 24 * i, cues[i];
      && |s| == 24 + 24 * |cues|
      && GetBE32(s, at + 8) == c.hot as int && GetBE32(s, at + 12) == c.basicKind
      && GetBE32(s, at + 16) == AsU32(c.time) && GetBE32(s, at + 20) == LoopEnd(c)
  {
    hide BE16, BE32, GetBE32, Section, Entries, AsU32, LoopEnd;
    var n, c := |cues|, cues[i];
    var fields := BE32(1) + BE16(0) + BE16(n) + BE32(0xFFFF_FFFF);
    EntryInSection(PCOB, 24, 24 + 24 * n, fields, n, k => BasicCueAt(cues, k), 24, [], i);
    assert fields + Entries(n, k => BasicCueAt(cues, k)) + [] == fields + Entries(n, k => BasicCueAt(cues, k));
    var s, at, entry := PcobSection(cues), 24 + 24 * i, BasicCueAt(cues, i);
    assert s[at..at + 24] == entry;
    CueFields(c, entry);
    CueTimesFit(c);
    FieldReads(s, at, entry, 8, c.hot as int);
    FieldReads(s, at, entry, 12, c.basicKind);
    FieldReads(s, at, entry, 16, AsU32(c.time));
    FieldReads(s, at, entry, 20, LoopEnd(c));
  }

  lemma CueFields(c: Cue, entry: bytes)
    requires entry == BasicCueAt([c], 0)
    ensures |entry| == 24 && entry[8..12] == BE32(c.hot as int) && entry[12..16] == BE32(c.basicKind)
    ensures entry[16..20] == BE32(AsU32(c.time)) && entry[20..24] == BE32(LoopEnd(c))
  {
    hide BE32, AsU32, LoopEnd;
  }

  lemma CueTimesFit(c: Cue)
    ensures AsU32(c.time) < U32_LIMIT && LoopEnd(c) < U32_LIMIT
  {}

  lemma FieldReads(s: bytes, at: nat, entry: bytes, offset: nat, x: nat)
    requires at + |entry| <= |s| && s[at..at + |entry|] == entry && offset + 4 <= |entry|
    requires entry[offset..offset + 4] == BE32(x) && x < U32_LIMIT
    ensures GetBE32(s, at + offset) == x
  {
    hide BE32, GetBE32;
    SubSlice(s, at, at + |entry|, offset, offset + 4);
    ReadBE32(s, at + offset, x);
  }

  // ---- Path ----------------------------------------------------------------------------------------

  function UnitsIn(s: bytes, at: nat, n: nat): seq<nat>
    requires at + 2 * n <= |s|
  {
    seq(n, i requires 0 <= i < n => GetBE16(s, at + 2 * i))
  }

  // len_path counts the bytes of the terminated path, and the units in them are the
  // path's followed by a zero.
  lemma PpthReads(path: string)
    requires |PpthSection(path)| < U32_LIMIT
    ensures var s, n := PpthSection(path), |PathUnits(path)|;
      16 + 2 * n == |s| && GetBE32(s, 12) == 2 * n && UnitsIn(s, 16, n) == Utf16(path) + [0]
  {
    hide BE16, BE32, GetBE16, GetBE32, Utf16;
    var s, units := PpthSection(path), PathUnits(path);
    var data := Entries(|units|, i => UnitAt(units, i));
    EntriesLength(|units|, i => UnitAt(units, i), 2);
    assert s[12..16] == BE32(2 * |units|);
    ReadBE32(s, 12, 2 * |units|);
    assert s[16..] == data;
    UnitsAre16Bit(path);
    forall i | 0 <= i < |units|
      ensures GetBE16(s, 16 + 2 * i) == units[i]
    {
      EntryAt(|units|, k => UnitAt(units, k), 2, i);
      assert s[16 + 2 * i..16 + 2 * i + 2] == data[i * 2..(i + 1) * 2] == BE16(units[i]);
      ReadBE16(s, 16 + 2 * i, units[i]);
    }
  }

  lemma {:induction false} UnitsAre16Bit(path: string)
    ensures forall i :: 0 <= i < |Utf16(path)| ==> Utf16(path)[i] < U16_LIMIT
  {
    if path != [] { UnitsAre16Bit(path[1..]); }
  }

  // ---- Seek points -----------------------------------------------------------------------------------

  predicate Ascend(size: nat) {
    forall i, j :: 0 <= i <= j < 400 ==> SeekPoint(size, i) <= SeekPoint(size, j)
  }

  // i 400ths of the file.
  function Point(size: nat, i: nat): nat {
    size * i / 400
  }

  lemma Product(size: nat, i: nat)
    requires i < 400 && size < 0x100_0000_0000
    ensures size * i < 0x100_0000_0000 * 400
  {}

  lemma SeekPointIs(size: nat, i: nat)
    requires i < 400 && size < 0x100_0000_0000
    ensures SeekPoint(size, i) == Point(size, i) % U32_LIMIT
  {
    Product(size, i);
  }

  lemma PointsGrow(size: nat, i: nat, j: nat)
    requires i <= j
    ensures Point(size, i) <= Point(size, j)
  {
    assert size * i <= size * j;
  }

  lemma LastPoint(size: nat)
    requires size < U32_LIMIT
    ensures Point(size, 399) < U32_LIMIT
  {}

  // Below 1 TiB the seek points never go back exactly when the last of them still fits 32
  // bits; files below 4 GiB are always fine.
  lemma SeekPointsAscend(size: nat)
    requires size < 0x100_0000_0000
    ensures Ascend(size) <==> size * 399 / 400 < U32_LIMIT
    ensures size < U32_LIMIT ==> Ascend(size)
  {
    hide SeekPoint, Ascend;
    assert Point(size, 399) == size * 399 / 400;
    if Point(size, 399) < U32_LIMIT {
      PointsThatFit(size);
    } else {
      PointsThatWrap(size);
    }
    if size < U32_LIMIT { LastPoint(size); }
  }

  // The offsets as they are read from the section.
  predicate OffsetsAscend(s: bytes)
    requires |s| == 1620
  {
    forall i, j :: 0 <= i <= j < 400 ==> OffsetIn(s, i) <= OffsetIn(s, j)
  }

  function OffsetIn(s: bytes, i: nat): nat
    requires |s| == 1620 && i < 400
  {
    GetBE32(s, 16 + 4 * i)
  }

  lemma SeekOffsetsAscend(size: nat, samples: nat)
    requires size < 0x100_0000_0000
    ensures |PvbrSection(size, samples)| == 1620
    ensures OffsetsAscend(PvbrSection(size, samples)) <==> size * 399 / 400 < U32_LIMIT
    ensures size < U32_LIMIT ==> OffsetsAscend(PvbrSection(size, samples))
  {
    hide PvbrSection, SeekPoint, GetBE32;
    var s := PvbrSection(size, samples);
    PvbrReads(size, samples, 0);
    forall i | 0 <= i < 400
      ensures OffsetIn(s, i) == SeekPoint(size, i)
    {
      PvbrReads(size, samples, i);
    }
    assert OffsetsAscend(s) <==> Ascend(size);
    SeekPointsAscend(size);
  }

  lemma PointsThatFit(size: nat)
    requires size < 0x100_0000_0000 && Point(size, 399) < U32_LIMIT
    ensures Ascend(size)
  {
    hide SeekPoint, Point;
    forall i, j | 0 <= i <= j < 400
      ensures SeekPoint(size, i) <= SeekPoint(size, j)
    {
      PointsGrow(size, i, j);
      PointsGrow(size, j, 399);
      SeekPointIs(size, i);
      SeekPointIs(size, j);
    }
  }

  lemma PointsThatWrap(size: nat)
    requires size < 0x100_0000_0000 && Point(size, 399) >= U32_LIMIT
    ensures !Ascend(size)
  {
    hide SeekPoint, Point;
    var i := FirstWrapped(size, 399);
    SeekPointIs(size, i);
    SeekPointIs(size, i - 1);
    StepSize(size, i);
    WrapGoesBack(Point(size, i - 1), Point(size, i));
  }

  lemma NoPoint(size: nat)
    ensures Point(size, 0) == 0
  {}

  // The first point that no longer fits.
  lemma {:induction false} FirstWrapped(size: nat, n: nat) returns (i: nat)
    requires n > 0 && Point(size, n) >= U32_LIMIT
    ensures 0 < i <= n && Point(size, i) >= U32_LIMIT && Point(size, i - 1) < U32_LIMIT
  {
    hide Point;
    NoPoint(size);
    if Point(size, n - 1) < U32_LIMIT {
      i := n;
    } else {
      i := FirstWrapped(size, n - 1);
    }
  }

  lemma StepSize(size: nat, i: nat)
    requires 0 < i && size < 0x100_0000_0000
    ensures Point(size, i) - Point(size, i - 1) < U32_LIMIT
  {
    var before := size * (i - 1);
    assert size * i == before + size;
  }

  lemma WrapGoesBack(a: nat, b: nat)
    requires a < U32_LIMIT <= b && b - a < U32_LIMIT
    ensures b % U32_LIMIT < a % U32_LIMIT
  {
    assert b % U32_LIMIT == b - U32_LIMIT;
  }

  // ---- Waveforms -------------------------------------------------------------------------------------

  // Height and whiteness read back from a preview byte, and the four fields of a colour
  // entry from its two bytes, up to the bits they have.
  lemma WaveformBytesRead(c: Column, e: ColorEntry)
    ensures ColumnByte(c) as int % 32 == c.height as int % 32 && ColumnByte(c) as int / 32 == c.whiteness as int % 8
    ensures ColorValue(e) < U16_LIMIT && ColorValue(e) / 8192 == e.red as int % 8
    ensures ColorValue(e) / 1024 % 8 == e.green as int % 8
    ensures ColorValue(e) / 128 % 8 == e.blue as int % 8 && ColorValue(e) / 4 % 32 == e.height as int % 32
  {
    var r, g, b, h := e.red as int % 8, e.green as int % 8, e.blue as int % 8, e.height as int % 32;
    assert ColorValue(e) / 1024 == r * 8 + g;
    assert ColorValue(e) / 128 == r * 64 + g * 8 + b;
    assert ColorValue(e) / 4 == r * 2048 + g * 256 + b * 32 + h;
  }

  // The overview keeps peaks: no column of the group is higher, and the peak is one of
  // them or zero.
  lemma {:induction false} PeakIsMax(columns: seq<Column>, group: nat, j: nat)
    ensures forall p :: group * 4 <= p < group * 4 + j && p < |columns| ==>
      ColumnByte(columns[p]) <= Peak(columns, group, j)
    ensures var peak := Peak(columns, group, j);
      peak == 0 || exists p :: group * 4 <= p < group * 4 + j && p < |columns| && ColumnByte(columns[p]) == peak
  {
    hide ColumnByte;
    if j > 0 {
      PeakIsMax(columns, group, j - 1);
    }
  }
}
