// The section writers and file generators of crates/bvault-core/src/anlz.rs, each proved
// to write exactly the section or file that Anlz describes.
module AnlzWriter {
  import opened Bytes
  import opened Anlz
  import BeatGrid

  // The loop every section writer has: append the bytes of entry 0, 1, ... n - 1.
  method PushEntries(start: bytes, n: nat, f: nat -> bytes) returns (buffer: bytes)
    ensures buffer == start + Entries(n, f)
  {
    buffer := start;
    for i := 0 to n
      invariant buffer == start + Entries(i, f)
    {
      buffer := buffer + f(i);
    }
  }

  method StartSection(tag: bytes, lenHeader: nat, lenTag: nat) returns (buffer: bytes)
    requires |tag| == 4
    ensures forall rest :: buffer + rest == Section(tag, lenHeader, lenTag, rest)
  {
    buffer := tag;
    buffer := buffer + BE32(lenHeader);
    buffer := buffer + BE32(lenTag);
  }

  method GeneratePpth(path: string) returns (buffer: bytes)
    ensures buffer == PpthSection(path)
  {
    hide Section, Entries, BE32, PathUnits, UnitAt;
    var units := PathUnits(path);
    buffer := StartSection(PPTH, 16, 16 + 2 * |units|);
    var fields := BE32(2 * |units|);
    var data := PushEntries(fields, |units|, i => UnitAt(units, i));
    buffer := buffer + data;
  }

  method GeneratePvbr(size: nat, samples: nat) returns (buffer: bytes)
    ensures buffer == PvbrSection(size, samples)
  {
    hide Section, Entries, BE32, SeekPoint;
    buffer := StartSection(PVBR, 16, 1620);
    var data := PushEntries(BE32(0), 400, i => BE32(SeekPoint(size, i)));
    data := data + BE32(samples % U32_LIMIT);
    buffer := buffer + data;
  }

  method GeneratePqtz(beats: seq<BeatGrid.Beat>) returns (buffer: bytes)
    ensures buffer == PqtzSection(beats)
  {
    hide Section, Entries, BE32, BeatEntry;
    buffer := StartSection(PQTZ, 24, 24 + 8 * |beats|);
    var fields := BE32(0) + BE32(0x8_0000) + BE32(|beats|);
    var data := PushEntries(fields, |beats|, i => BeatEntry(beats, i));
    buffer := buffer + data;
  }

  method GeneratePwav(columns: seq<Column>) returns (buffer: bytes)
    ensures buffer == PwavSection(columns)
  {
    hide Section, Entries, BE32, ColumnAt;
    buffer := StartSection(PWAV, 20, 420);
    var data := PushEntries(BE32(400) + BE32(0x1_0000), 400, i => [ColumnAt(columns, i)]);
    buffer := buffer + data;
  }

  // Downsampling: the peak of every four columns.
  method GeneratePwv2(columns: seq<Column>) returns (buffer: bytes)
    ensures buffer == Pwv2Section(columns)
  {
    hide Section, BE32, ColumnByte;
    buffer := StartSection(PWV2, 20, 120);
    var data := BE32(100) + BE32(0x1_0000);
    for i := 0 to 100
      invariant data == BE32(100) + BE32(0x1_0000) + Peaks(columns, i)
    {
      var peak: byte := 0;
      for j := 0 to 4
        invariant peak == Peak(columns, i, j)
      {
        var idx := i * 4 + j;
        if idx < |columns| {
          var v := ColumnByte(columns[idx]);
          if v > peak {
            peak := v;
          }
        }
      }
      data := data + [peak];
    }
    buffer := buffer + data;
  }

  function Peaks(columns: seq<Column>, n: nat): bytes {
    Entries(n, i => [Peak(columns, i, 4)])
  }

  method GeneratePwv3(detail: seq<ColorEntry>) returns (buffer: bytes)
    ensures buffer == Pwv3Section(detail)
  {
    hide Section, Entries, BE32, GreyAt;
    buffer := StartSection(PWV3, 24, 24 + |detail|);
    var fields := BE32(1) + BE32(|detail|) + BE32(0x96_0000);
    var data := PushEntries(fields, |detail|, i => [GreyAt(detail, i)]);
    buffer := buffer + data;
  }

  method GeneratePwv4(columns: seq<PreviewColumn>) returns (buffer: bytes)
    ensures buffer == Pwv4Section(columns)
  {
    hide Section, Entries, BE32, PreviewAt;
    buffer := StartSection(PWV4, 24, 7224);
    var data := PushEntries(BE32(6) + BE32(1200) + BE32(0), 1200, i => PreviewAt(columns, i));
    buffer := buffer + data;
  }

  method GeneratePwv5(detail: seq<ColorEntry>) returns (buffer: bytes)
    ensures buffer == Pwv5Section(detail)
  {
    hide Section, Entries, BE32, ColorAt;
    buffer := StartSection(PWV5, 24, 24 + 2 * |detail|);
    var fields := BE32(2) + BE32(|detail|) + BE32(0x96_0305);
    var data := PushEntries(fields, |detail|, i => ColorAt(detail, i));
    buffer := buffer + data;
  }

  method GeneratePwv6(columns: seq<PreviewColumn>) returns (buffer: bytes)
    ensures buffer == Pwv6Section(columns)
  {
    hide Section, Entries, BE32, BandsAt;
    buffer := StartSection(PWV6, 20, 3620);
    var data := PushEntries(BE32(3) + BE32(1200), 1200, i => BandsAt(columns, i));
    buffer := buffer + data;
  }

  method GeneratePwv7(detail: seq<ColorEntry>) returns (buffer: bytes)
    ensures buffer == Pwv7Section(detail)
  {
    hide Section, Entries, BE32, ScaledAt;
    buffer := StartSection(PWV7, 24, 24 + 3 * |detail|);
    var fields := BE32(3) + BE32(|detail|) + BE32(0x96_0000);
    var data := PushEntries(fields, |detail|, i => ScaledAt(detail, i));
    buffer := buffer + data;
  }

  method GeneratePcob(cues: seq<Cue>) returns (buffer: bytes)
    ensures buffer == PcobSection(cues)
  {
    hide Section, Entries, BE32, BE16, BasicCueAt;
    buffer := StartSection(PCOB, 24, 24 + 24 * |cues|);
    var fields := BE32(1) + BE16(0) + BE16(|cues|) + BE32(0xFFFF_FFFF);
    var data := PushEntries(fields, |cues|, i => BasicCueAt(cues, i));
    buffer := buffer + data;
  }

  method GeneratePco2Entries(cues: seq<Cue>, hot: bool) returns (buffer: bytes)
    ensures buffer == Pco2Section(cues, hot)
  {
    hide Section, Entries, BE32, BE16, ExtendedCueAt, DeclaredLength;
    var entriesSize := 0;
    for i := 0 to |cues|
      invariant entriesSize == DeclaredTotal(cues[..i], hot)
    {
      assert cues[..i + 1][..i] == cues[..i];
      entriesSize := entriesSize + DeclaredLength(cues[i], hot);
    }
    assert cues[..|cues|] == cues;
    buffer := StartSection(PCO2, 16, (20 + entriesSize) % U32_LIMIT);
    var fields := BE32(if hot then 1 else 0) + BE16(0) + BE16(|cues|);
    var data := PushEntries(fields, |cues|, i => ExtendedCueAt(cues, hot, i));
    buffer := buffer + data;
  }

  method FilterCues(cues: seq<Cue>, hot: bool) returns (kept: seq<Cue>)
    ensures kept == Kept(cues, hot)
  {
    kept := [];
    for i := 0 to |cues|
      invariant kept == Kept(cues[..i], hot)
    {
      assert cues[..i + 1][..i] == cues[..i];
      if (cues[i].hot > 0) == hot {
        kept := kept + [cues[i]];
      }
    }
    assert cues[..|cues|] == cues;
  }

  method GeneratePco2(cues: seq<Cue>) returns (buffer: bytes)
    ensures buffer == Concat(Pco2Sections(cues))
  {
    hide Pco2Section, Kept;
    var hotCues := FilterCues(cues, true);
    var memoryCues := FilterCues(cues, false);
    buffer := [];
    ghost var parts: seq<bytes> := [];
    if hotCues != [] {
      var section := GeneratePco2Entries(hotCues, true);
      ConcatSnoc(parts, section);
      buffer, parts := buffer + section, parts + [section];
    }
    if memoryCues != [] {
      var section := GeneratePco2Entries(memoryCues, false);
      ConcatSnoc(parts, section);
      buffer, parts := buffer + section, parts + [section];
    }
    assert parts == Pco2Sections(cues);
  }

  method GenerateDatFile(beats: seq<BeatGrid.Beat>, w: Waveform, path: string, size: nat, samples: nat)
    returns (file: bytes)
    ensures file == FileOf(DatSections(beats, w, path, size, samples))
  {
    hide PpthSection, PvbrSection, PqtzSection, PwavSection, Pwv2Section, EmptyPcob, PmaiHeader;
    var ppth := GeneratePpth(path);
    var pvbr := GeneratePvbr(size, samples);
    var pqtz := GeneratePqtz(beats);
    var pwav := GeneratePwav(w.preview);
    var pwv2 := GeneratePwv2(w.preview);
    file := WriteFile([ppth, pvbr, pqtz, pwav, pwv2, EmptyPcob(1), EmptyPcob(0)]);
  }

  method Generate2exFile(w: Waveform, path: string) returns (file: bytes)
    ensures file == FileOf(TwoExSections(w, path))
  {
    hide PpthSection, Pwv7Section, Pwv6Section, PwvcSection, PmaiHeader;
    var ppth := GeneratePpth(path);
    var pwv7 := GeneratePwv7(w.detail);
    var pwv6 := GeneratePwv6(w.colorPreview);
    file := WriteFile([ppth, pwv7, pwv6, PwvcSection()]);
  }

  method GenerateExtFile(w: Waveform, path: string, cues: seq<Cue>) returns (file: bytes)
    ensures file == FileOf(ExtSections(w, path, cues))
  {
    hide PpthSection, Pwv3Section, Pwv4Section, Pwv5Section, PcobSection, Pco2Sections, EmptyPcob, EmptyPco2,
         PmaiHeader;
    var ppth := GeneratePpth(path);
    var pwv3 := GeneratePwv3(w.detail);
    var pwv4 := GeneratePwv4(w.colorPreview);
    var pwv5 := GeneratePwv5(w.detail);
    var pcobHot, pco2Hot;
    if cues == [] {
      pcobHot, pco2Hot := EmptyPcob(1), EmptyPco2(1);
    } else {
      pcobHot := GeneratePcob(cues);
      pco2Hot := GeneratePco2(cues);
    }
    file := WriteFile([ppth, pwv3, pcobHot, EmptyPcob(0), pco2Hot, EmptyPco2(0), pwv5, pwv4]);
    ExtParts(w, path, cues, pcobHot, pco2Hot);
  }

  // The extended cue sections are written as one buffer.
  lemma ExtParts(w: Waveform, path: string, cues: seq<Cue>, pcobHot: bytes, pco2Hot: bytes)
    requires pcobHot == if cues == [] then EmptyPcob(1) else PcobSection(cues)
    requires pco2Hot == if cues == [] then EmptyPco2(1) else Concat(Pco2Sections(cues))
    ensures Concat([PpthSection(path), Pwv3Section(w.detail), pcobHot, EmptyPcob(0), pco2Hot, EmptyPco2(0),
      Pwv5Section(w.detail), Pwv4Section(w.colorPreview)])
      == Concat(ExtSections(w, path, cues))
  {
    hide PpthSection, Pwv3Section, Pwv4Section, Pwv5Section, PcobSection, Pco2Sections, EmptyPcob, EmptyPco2,
         Concat;
    var front := [PpthSection(path), Pwv3Section(w.detail), pcobHot, EmptyPcob(0)];
    var middle := if cues == [] then [EmptyPco2(1)] else Pco2Sections(cues);
    var back := [EmptyPco2(0), Pwv5Section(w.detail), Pwv4Section(w.colorPreview)];
    ConcatOne(pco2Hot);
    assert Concat(middle) == pco2Hot;
    ConcatAppend(front + middle, back);
    ConcatAppend(front, middle);
    ConcatAppend(front + [pco2Hot], back);
    ConcatAppend(front, [pco2Hot]);
    assert ExtSections(w, path, cues) == front + middle + back;
    assert [PpthSection(path), Pwv3Section(w.detail), pcobHot, EmptyPcob(0), pco2Hot, EmptyPco2(0),
      Pwv5Section(w.detail), Pwv4Section(w.colorPreview)]
        == front + [pco2Hot] + back;
  }

  lemma ConcatOne(s: bytes)
    ensures Concat([s]) == s
  {}

  // Header with the total of the section lengths, then the sections one after another.
  method WriteFile(sections: seq<bytes>) returns (buffer: bytes)
    ensures buffer == FileOf(sections)
  {
    hide PmaiHeader, Concat;
    NoParts();
    var sectionsSize := 0;
    for i := 0 to |sections|
      invariant sectionsSize == |Concat(sections[..i])|
    {
      assert sections[..i + 1] == sections[..i] + [sections[i]];
      ConcatSnoc(sections[..i], sections[i]);
      sectionsSize := sectionsSize + |sections[i]|;
    }
    assert sections[..|sections|] == sections;
    var header := PmaiHeader(28 + sectionsSize);
    buffer := header;
    for i := 0 to |sections|
      invariant buffer == header + Concat(sections[..i])
    {
      assert sections[..i + 1] == sections[..i] + [sections[i]];
      ConcatSnoc(sections[..i], sections[i]);
      buffer := buffer + sections[i];
    }
  }

  lemma NoParts()
    ensures Concat([]) == []
  {}
}
