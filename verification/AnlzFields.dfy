// What the ANLZ sections say, number by number and without their definitions: section
// heads, times, waveform values and the extended cues, which are of varying length.
module AnlzFields {
  import opened Wrappers
  import opened Bytes
  import opened Anlz
  import opened AnlzReads
  import BeatGrid

  // ---- Numbers ---------------------------------------------------------------------------------

  // A time is stored in whole milliseconds, from 0 up to the largest 32-bit number.
  lemma TimeIs(t: real)
    ensures t <= 0.0 ==> AsU32(t) == 0
    ensures 0.0 <= t < 4_294_967_296.0 ==> AsU32(t) as real <= t < AsU32(t) as real + 1.0
    ensures t >= 4_294_967_296.0 ==> AsU32(t) == 0xFFFF_FFFF
  {}

  // A loop ends its length after the cue; what is no loop has the largest number there.
  lemma LoopEndIs(c: Cue)
    ensures c.loopLength <= 0.0 ==> LoopEnd(c) == 0xFFFF_FFFF
    ensures c.loopLength > 0.0 && 0.0 <= c.time + c.loopLength < 4_294_967_296.0 ==>
      LoopEnd(c) as real <= c.time + c.loopLength < LoopEnd(c) as real + 1.0
  {}

  // While 400 times the file's bytes fit 64 bits, seek offset i lies i 400ths into it.
  lemma SeekOffsetIs(size: nat, samples: nat, i: nat)
    requires i < 400 && size * i < 0x1_0000_0000_0000_0000
    ensures |PvbrSection(size, samples)| == 1620
    ensures GetBE32(PvbrSection(size, samples), 16 + 4 * i) == size * i / 400 % 0x1_0000_0000
  {
    hide PvbrSection, GetBE32;
    PvbrReads(size, samples, i);
  }

  // Above that the product saturates, and every offset is the same.
  lemma LateSeekOffsetIs(size: nat, samples: nat, i: nat)
    requires i < 400 && size * i >= 0x1_0000_0000_0000_0000
    ensures |PvbrSection(size, samples)| == 1620
    ensures GetBE32(PvbrSection(size, samples), 16 + 4 * i) == 0xFFFF_FFFF_FFFF_FFFF / 400 % 0x1_0000_0000
  {
    hide PvbrSection, GetBE32;
    PvbrReads(size, samples, i);
  }

  // The grey value keeps the height and the mean of the three bands, the mean capped at 7.
  lemma GreyIs(e: ColorEntry)
    ensures GreyByte(e) as int % 32 == e.height as int % 32
    ensures var mean := (e.red as int + e.green as int + e.blue as int) / 3;
      GreyByte(e) as int / 32 == if mean <= 7 then mean else 7
  {}

  // A scaled band is its 217 possible products spread over 0 to 127: the whole number at or
  // just below 127 / 217 of the product.
  lemma ScaledIs(band: byte, height: byte)
    ensures var product := (band as int % 8) * (height as int % 32);
      217 * Scaled(band, height) as int <= 127 * product < 217 * (Scaled(band, height) as int + 1)
  {
    var b, h := band as int % 8, height as int % 32;
    assert b * h <= 7 * h <= 217;
  }

  // ---- Heads of sections -------------------------------------------------------------------------

  // Tag, header length and section length are the first twelve bytes, and the rest follows.
  lemma SectionSays(tag: bytes, lenHeader: nat, lenTag: nat, rest: bytes)
    requires |tag| == 4 && lenHeader < U32_LIMIT && lenTag < U32_LIMIT
    ensures var s := Section(tag, lenHeader, lenTag, rest);
      s[0..4] == tag && GetBE32(s, 4) == lenHeader && GetBE32(s, 8) == lenTag && s[12..] == rest
  {
    hide BE32, GetBE32;
    var s := Section(tag, lenHeader, lenTag, rest);
    assert s[4..8] == BE32(lenHeader) && s[8..12] == BE32(lenTag);
    ReadBE32(s, 4, lenHeader);
    ReadBE32(s, 8, lenTag);
  }

  // Up to three 32-bit numbers at the start of the rest.
  lemma ThreeFields(tag: bytes, lenHeader: nat, lenTag: nat, x: nat, y: nat, z: nat, rest: bytes)
    requires |tag| == 4 && lenHeader < U32_LIMIT && lenTag < U32_LIMIT
    requires x < U32_LIMIT && y < U32_LIMIT && z < U32_LIMIT
    ensures var s := Section(tag, lenHeader, lenTag, BE32(x) + BE32(y) + BE32(z) + rest);
      && s[0..4] == tag && GetBE32(s, 4) == lenHeader && GetBE32(s, 8) == lenTag
      && GetBE32(s, 12) == x && GetBE32(s, 16) == y && GetBE32(s, 20) == z
  {
    hide BE32, GetBE32;
    var all := BE32(x) + BE32(y) + BE32(z) + rest;
    SectionSays(tag, lenHeader, lenTag, all);
    var s := Section(tag, lenHeader, lenTag, all);
    assert all[0..4] == BE32(x) && all[4..8] == BE32(y) && all[8..12] == BE32(z);
    assert s[12..16] == all[0..4] && s[16..20] == all[4..8] && s[20..24] == all[8..12];
    ReadBE32(s, 12, x);
    ReadBE32(s, 16, y);
    ReadBE32(s, 20, z);
  }

  lemma TwoFields(tag: bytes, lenHeader: nat, lenTag: nat, x: nat, y: nat, rest: bytes)
    requires |tag| == 4 && lenHeader < U32_LIMIT && lenTag < U32_LIMIT && x < U32_LIMIT && y < U32_LIMIT
    ensures var s := Section(tag, lenHeader, lenTag, BE32(x) + BE32(y) + rest);
      && s[0..4] == tag && GetBE32(s, 4) == lenHeader && GetBE32(s, 8) == lenTag
      && GetBE32(s, 12) == x && GetBE32(s, 16) == y
  {
    hide BE32, GetBE32;
    var all := BE32(x) + BE32(y) + rest;
    SectionSays(tag, lenHeader, lenTag, all);
    var s := Section(tag, lenHeader, lenTag, all);
    assert all[0..4] == BE32(x) && all[4..8] == BE32(y);
    assert s[12..16] == all[0..4] && s[16..20] == all[4..8];
    ReadBE32(s, 12, x);
    ReadBE32(s, 16, y);
  }

  // The beat grid: 24 bytes of head, a fixed number and the number of beats.
  lemma PqtzSays(beats: seq<BeatGrid.Beat>)
    requires |beats| < U32_LIMIT / 8 - 3
    ensures var s := PqtzSection(beats);
      && |s| == 24 + 8 * |beats| && s[0..4] == [0x50, 0x51, 0x54, 0x5A]
      && GetBE32(s, 4) == 24 && GetBE32(s, 12) == 0 && GetBE32(s, 16) == 0x8_0000 && GetBE32(s, 20) == |beats|
  {
    hide Section, GetBE32, BeatEntry;
    EntriesLength(|beats|, i => BeatEntry(beats, i), 8);
    ThreeFields(PQTZ, 24, 24 + 8 * |beats|, 0, 0x8_0000, |beats|, Entries(|beats|, i => BeatEntry(beats, i)));
  }

  // The previews: how many columns there are, and how many bytes each takes.
  lemma PreviewHeads(columns: seq<Column>, colors: seq<PreviewColumn>)
    ensures var s := PwavSection(columns);
      |s| >= 20 && s[0..4] == [0x50, 0x57, 0x41, 0x56] && GetBE32(s, 4) == 20 && GetBE32(s, 12) == 400
      && GetBE32(s, 16) == 0x1_0000
    ensures var s := Pwv2Section(columns);
      |s| >= 20 && s[0..4] == [0x50, 0x57, 0x56, 0x32] && GetBE32(s, 4) == 20 && GetBE32(s, 12) == 100
      && GetBE32(s, 16) == 0x1_0000
    ensures var s := Pwv4Section(colors);
      |s| >= 24 && s[0..4] == [0x50, 0x57, 0x56, 0x34] && GetBE32(s, 4) == 24 && GetBE32(s, 12) == 6
      && GetBE32(s, 16) == 1200 && GetBE32(s, 20) == 0
    ensures var s := Pwv6Section(colors);
      |s| >= 20 && s[0..4] == [0x50, 0x57, 0x56, 0x36] && GetBE32(s, 4) == 20 && GetBE32(s, 12) == 3
      && GetBE32(s, 16) == 1200
  {
    hide Section, GetBE32, Entries;
    TwoFields(PWAV, 20, 420, 400, 0x1_0000, Entries(400, i => [ColumnAt(columns, i)]));
    TwoFields(PWV2, 20, 120, 100, 0x1_0000, Entries(100, i => [Peak(columns, i, 4)]));
    ThreeFields(PWV4, 24, 7224, 6, 1200, 0, Entries(1200, i => PreviewAt(colors, i)));
    TwoFields(PWV6, 20, 3620, 3, 1200, Entries(1200, i => BandsAt(colors, i)));
  }

  // The details: bytes of an entry, number of entries, and a fixed number.
  lemma DetailHeads(detail: seq<ColorEntry>)
    requires 3 * |detail| + 24 < U32_LIMIT
    ensures var s := Pwv3Section(detail);
      |s| >= 24 && s[0..4] == [0x50, 0x57, 0x56, 0x33] && GetBE32(s, 4) == 24 && GetBE32(s, 12) == 1
      && GetBE32(s, 16) == |detail| && GetBE32(s, 20) == 0x96_0000
    ensures var s := Pwv5Section(detail);
      |s| >= 24 && s[0..4] == [0x50, 0x57, 0x56, 0x35] && GetBE32(s, 4) == 24 && GetBE32(s, 12) == 2
      && GetBE32(s, 16) == |detail| && GetBE32(s, 20) == 0x96_0305
    ensures var s := Pwv7Section(detail);
      |s| >= 24 && s[0..4] == [0x50, 0x57, 0x56, 0x37] && GetBE32(s, 4) == 24 && GetBE32(s, 12) == 3
      && GetBE32(s, 16) == |detail| && GetBE32(s, 20) == 0x96_0000
  {
    hide Section, GetBE32, Entries;
    var n := |detail|;
    ThreeFields(PWV3, 24, 24 + n, 1, n, 0x96_0000, Entries(n, i => [GreyAt(detail, i)]));
    ThreeFields(PWV5, 24, 24 + 2 * n, 2, n, 0x96_0305, Entries(n, i => ColorAt(detail, i)));
    ThreeFields(PWV7, 24, 24 + 3 * n, 3, n, 0x96_0000, Entries(n, i => ScaledAt(detail, i)));
  }

  // ---- Columns and entries, field by field -------------------------------------------------------------

  // Preview column i keeps five bits of height and three of whiteness; columns beyond the
  // last are zero.
  lemma PreviewColumnSays(columns: seq<Column>, i: nat)
    requires i < 400
    ensures var s := PwavSection(columns);
      && |s| == 420 && (i >= |columns| ==> s[20 + i] == 0)
      && (i < |columns| ==> s[20 + i] as int % 32 == columns[i].height as int % 32)
      && (i < |columns| ==> s[20 + i] as int / 32 == columns[i].whiteness as int % 8)
  {
    hide PwavSection;
    PreviewsRead(columns, i);
    if i < |columns| { WaveformBytesRead(columns[i], ColorEntry(0, 0, 0, 0)); }
  }

  // Overview column i is the largest of the bytes of its four columns.
  lemma OverviewSays(columns: seq<Column>, i: nat)
    requires i < 100
    ensures |Pwv2Section(columns)| == 120
    ensures forall p :: 4 * i <= p < 4 * i + 4 && p < |columns| ==>
      ColumnByte(columns[p]) <= Pwv2Section(columns)[20 + i]
    ensures var peak := Pwv2Section(columns)[20 + i];
      peak == 0 || exists p :: 4 * i <= p < 4 * i + 4 && p < |columns| && ColumnByte(columns[p]) == peak
  {
    hide Pwv2Section, ColumnByte, Peak;
    PreviewsRead(columns, i);
    PeakIsMax(columns, i, 4);
  }

  // Colour preview column i: height, luminance, blue, red, green and blue again in seven
  // bits each, and its three bands alone in the other section.
  lemma ColorColumnSays(columns: seq<PreviewColumn>, i: nat)
    requires i < 1200
    ensures |Pwv4Section(columns)| == 7224 && |Pwv6Section(columns)| == 3620
    ensures var s, at := Pwv4Section(columns), 24 + 6 * i;
      if i >= |columns| then s[at..at + 6] == Zeros(6)
      else
        var c := columns[i];
        && s[at] as int == c.height as int % 128 && s[at + 1] as int == c.luminance as int % 128
        && s[at + 2] as int == c.blue as int % 128 && s[at + 3] as int == c.red as int % 128
        && s[at + 4] as int == c.green as int % 128 && s[at + 5] as int == c.blue2 as int % 128
    ensures var s, at := Pwv6Section(columns), 20 + 3 * i;
      if i >= |columns| then s[at..at + 3] == Zeros(3)
      else
        var c := columns[i];
        && s[at] as int == c.blue as int % 128 && s[at + 1] as int == c.red as int % 128
        && s[at + 2] as int == c.green as int % 128
  {
    hide Pwv4Section, Pwv6Section;
    ColorPreviewsRead(columns, i);
    ReadsOut(Pwv4Section(columns), 24 + 6 * i, PreviewAt(columns, i));
    ReadsOut(Pwv6Section(columns), 20 + 3 * i, BandsAt(columns, i));
  }

  lemma ReadsOut(s: bytes, at: nat, part: bytes)
    requires at + |part| <= |s| && s[at..at + |part|] == part
    ensures forall k :: 0 <= k < |part| ==> s[at + k] == part[k]
  {
    forall k | 0 <= k < |part|
      ensures s[at + k] == part[k]
    {
      assert s[at + k] == s[at..at + |part|][k];
    }
  }

  // ---- Cues -----------------------------------------------------------------------------------------

  // Which cues go into a section: the ones of its kind, in their order.
  function KeptBefore(cues: seq<Cue>, hot: bool, n: nat): nat
    requires n <= |cues|
  {
    if n == 0 then 0 else KeptBefore(cues, hot, n - 1) + if (cues[n - 1].hot > 0) == hot then 1 else 0
  }

  lemma {:induction false} KeptInOrder(cues: seq<Cue>, hot: bool, i: nat)
    requires i < |cues| && (cues[i].hot > 0) == hot
    ensures KeptBefore(cues, hot, i) < |Kept(cues, hot)| == KeptBefore(cues, hot, |cues|)
    ensures Kept(cues, hot)[KeptBefore(cues, hot, i)] == cues[i]
  {
    var n := |cues| - 1;
    KeptCount(cues, hot);
    KeptCount(cues[..n], hot);
    KeptPrefix(cues, hot, n, n);
    if i < n {
      KeptInOrder(cues[..n], hot, i);
      KeptPrefix(cues, hot, n, i);
    }
  }

  lemma {:induction false} KeptPrefix(cues: seq<Cue>, hot: bool, n: nat, i: nat)
    requires i <= n <= |cues|
    ensures KeptBefore(cues[..n], hot, i) == KeptBefore(cues, hot, i)
  {
    if i > 0 { KeptPrefix(cues, hot, n, i - 1); }
  }

  lemma {:induction false} KeptCount(cues: seq<Cue>, hot: bool)
    ensures |Kept(cues, hot)| == KeptBefore(cues, hot, |cues|)
  {
    if cues != [] {
      KeptCount(cues[..|cues| - 1], hot);
      KeptPrefix(cues, hot, |cues| - 1, |cues| - 1);
    }
  }

  // The bytes an extended entry really takes.
  function TrueLength(c: Cue, hot: bool): nat {
    36 + (match c.comment case None => 0 case Some(text) => |text| + 5) + if hot then 8 else 0
  }

  // What an extended entry says: its slot, kind, time and loop end; the comment with its
  // length and a final zero if there is one; and for hot cues the colour.
  ghost predicate SaysCue(e: bytes, c: Cue, hot: bool) {
    && |e| == TrueLength(c, hot) && e[0..4] == [0x50, 0x43, 0x50, 0x32]
    && GetBE32(e, 4) == (if hot then 52 else 36) + (match c.comment case None => 0 case Some(text) => |text| + 4)
    && GetBE32(e, 8) == c.hot as int && GetBE32(e, 12) == c.extendedKind
    && GetBE32(e, 16) == AsU32(c.time) && GetBE32(e, 20) == LoopEnd(c) && e[24..36] == Zeros(12)
    && (match c.comment
        case None => true
        case Some(text) =>
          GetBE32(e, 36) == |text| + 1 && e[40..40 + |text|] == text && e[40 + |text|] == 0)
    && (hot ==> e[|e| - 8..|e| - 4] == c.color && e[|e| - 4..] == Zeros(4))
  }

  lemma ExtendedCueSays(c: Cue, hot: bool)
    requires |c.color| == 4 && c.extendedKind < U32_LIMIT && (c.comment.Some? ==> |c.comment.value| < U32_LIMIT - 64)
    ensures SaysCue(ExtendedCue(c, hot), c, hot)
  {
    hide BE32, GetBE32, AsU32, LoopEnd;
    var e := ExtendedCue(c, hot);
    ExtendedCueHead(c, hot);
    if c.comment.Some? {
      var text := c.comment.value;
      assert e[36..40] == BE32(|text| + 1) && e[40..40 + |text|] == text && e[40 + |text|..41 + |text|] == [0];
      ReadBE32(e, 36, |text| + 1);
    }
  }

  // The first 36 bytes.
  lemma ExtendedCueHead(c: Cue, hot: bool)
    requires |c.color| == 4 && c.extendedKind < U32_LIMIT && (c.comment.Some? ==> |c.comment.value| < U32_LIMIT - 64)
    ensures var e := ExtendedCue(c, hot);
      |e| >= 36 && GetBE32(e, 4) == DeclaredLength(c, hot) - 4
      && GetBE32(e, 8) == c.hot as int && GetBE32(e, 12) == c.extendedKind
      && GetBE32(e, 16) == AsU32(c.time) && GetBE32(e, 20) == LoopEnd(c) && e[24..36] == Zeros(12)
  {
    hide BE32, GetBE32, AsU32, LoopEnd;
    var e := ExtendedCue(c, hot);
    ZeroWordIs();
    CueTimesFit(c);
    assert e[4..8] == BE32(DeclaredLength(c, hot) - 4);
    assert e[8..12] == BE32(c.hot as int) && e[12..16] == BE32(c.extendedKind);
    assert e[16..20] == BE32(AsU32(c.time)) && e[20..24] == BE32(LoopEnd(c));
    assert e[24..36] == BE32(0) + Zeros(8);
    ReadBE32(e, 4, DeclaredLength(c, hot) - 4);
    ReadBE32(e, 8, c.hot as int);
    ReadBE32(e, 12, c.extendedKind);
    ReadBE32(e, 16, AsU32(c.time));
    ReadBE32(e, 20, LoopEnd(c));
  }

  lemma ZeroWordIs()
    ensures BE32(0) == Zeros(4)
  {}

  // Where entry i of an extended section begins: behind the true lengths of those before.
  function CueStart(cues: seq<Cue>, hot: bool, i: nat): nat
    requires i <= |cues|
  {
    if i == 0 then 20 else CueStart(cues, hot, i - 1) + TrueLength(cues[i - 1], hot)
  }

  lemma {:induction false} EntriesEnd(cues: seq<Cue>, hot: bool, n: nat)
    requires n <= |cues| && ColorsFit(cues)
    ensures 20 + |Entries(n, i => ExtendedCueAt(cues, hot, i))| == CueStart(cues, hot, n)
  {
    hide ExtendedCue, TrueLength;
    if n > 0 {
      EntriesEnd(cues, hot, n - 1);
      CueLength(cues[n - 1], hot);
    }
  }

  lemma {:induction false} EntryOfVaryingLength(n: nat, f: nat -> bytes, i: nat)
    requires i < n
    ensures |Entries(i, f)| + |f(i)| <= |Entries(n, f)|
    ensures Entries(n, f)[|Entries(i, f)|..|Entries(i, f)| + |f(i)|] == f(i)
  {
    if i < n - 1 {
      EntryOfVaryingLength(n - 1, f, i);
      var before, at := Entries(n - 1, f), |Entries(i, f)|;
      assert (before + f(n - 1))[at..at + |f(i)|] == before[at..at + |f(i)|];
    }
  }

  // Every extended cue is found there, although the lengths the entries declare lead
  // elsewhere.
  lemma Pco2Reads(cues: seq<Cue>, hot: bool, i: nat)
    requires i < |cues| && ColorsFit(cues) && cues[i].extendedKind < U32_LIMIT
    requires cues[i].comment.Some? ==> |cues[i].comment.value| < U32_LIMIT - 64
    ensures var s, at := Pco2Section(cues, hot), CueStart(cues, hot, i);
      at + TrueLength(cues[i], hot) <= |s| && SaysCue(s[at..at + TrueLength(cues[i], hot)], cues[i], hot)
  {
    hide BE32, BE16, SaysCue, ExtendedCue, DeclaredTotal, Entries, TrueLength, CueStart;
    var s, all := Pco2Section(cues, hot), Entries(|cues|, k => ExtendedCueAt(cues, hot, k));
    EntriesEnd(cues, hot, i);
    EntryOfVaryingLength(|cues|, k => ExtendedCueAt(cues, hot, k), i);
    ExtendedCueSays(cues[i], hot);
    CueLength(cues[i], hot);
    var at, n := CueStart(cues, hot, i), TrueLength(cues[i], hot);
    assert at >= 20 && at - 20 + n <= |all|;
    assert s[20..] == all && s[at..at + n] == all[at - 20..at - 20 + n];
  }

  lemma CueLength(c: Cue, hot: bool)
    requires |c.color| == 4
    ensures |ExtendedCue(c, hot)| == TrueLength(c, hot)
  {}

  // How many of the first n cues have a comment.
  function Comments(cues: seq<Cue>, n: nat): nat
    requires n <= |cues|
  {
    if n == 0 then 0 else Comments(cues, n - 1) + if cues[n - 1].comment.Some? then 1 else 0
  }

  // By how much the declared length of an extended section is wrong: 12 bytes too many for
  // a hot cue and 4 for a memory cue, and one fewer for each comment.
  lemma {:induction false} DeclaredIs(cues: seq<Cue>, hot: bool, n: nat)
    requires n <= |cues|
    ensures 20 + DeclaredTotal(cues[..n], hot)
      == CueStart(cues, hot, n) + (if hot then 12 else 4) * n - Comments(cues, n)
  {
    if n > 0 {
      DeclaredIs(cues, hot, n - 1);
      assert cues[..n][..n - 1] == cues[..n - 1];
    }
  }

  lemma Pco2Declares(cues: seq<Cue>, hot: bool)
    requires ColorsFit(cues)
    ensures var s := Pco2Section(cues, hot);
      && |s| == CueStart(cues, hot, |cues|) && GetBE32(s, 4) == 16
      && GetBE32(s, 8) == (|s| + (if hot then 12 else 4) * |cues| - Comments(cues, |cues|)) % 0x1_0000_0000
  {
    hide BE32, GetBE32, BE16, Entries, DeclaredTotal, CueStart, Comments;
    EntriesEnd(cues, hot, |cues|);
    DeclaredIs(cues, hot, |cues|);
    assert cues[..|cues|] == cues;
    var total := 20 + DeclaredTotal(cues, hot);
    var entries := Entries(|cues|, i => ExtendedCueAt(cues, hot, i));
    SectionSays(PCO2, 16, total % U32_LIMIT, BE32(if hot then 1 else 0) + BE16(0) + BE16(|cues|) + entries);
  }

  // A basic cue begins with its mark and the length of the rest.
  lemma BasicCueBegins(cues: seq<Cue>, i: nat)
    requires i < |cues|
    ensures var e := BasicCueAt(cues, i); e[0..4] == [0x50, 0x43, 0x50, 0x01] && GetBE32(e, 4) == 20
  {
    hide BE32, GetBE32;
    var e := BasicCueAt(cues, i);
    assert e[4..8] == BE32(20);
    ReadBE32(e, 4, 20);
  }

  // The three band gains are one hundred, behind a zero.
  lemma PwvcSays()
    ensures var s := PwvcSection();
      && |s| == 20 && GetBE32(s, 4) == 14 && GetBE16(s, 12) == 0
      && GetBE16(s, 14) == GetBE16(s, 16) == GetBE16(s, 18) == 100
  {
    hide BE32, GetBE32, BE16, GetBE16;
    SectionSays(PWVC, 14, 20, BE16(0) + BE16(100) + BE16(100) + BE16(100));
    var s := PwvcSection();
    assert s[12..14] == BE16(0) && s[14..16] == s[16..18] == s[18..20] == BE16(100);
    ReadBE16(s, 12, 0);
    ReadBE16(s, 14, 100);
    ReadBE16(s, 16, 100);
    ReadBE16(s, 18, 100);
  }

  // The kind of a cue list, and how many cues it has.
  lemma CueListHeads(cueType: nat, cues: seq<Cue>, hot: bool)
    requires cueType < U32_LIMIT && |cues| < U16_LIMIT
    ensures GetBE32(EmptyPcob(cueType), 12) == GetBE32(EmptyPco2(cueType), 12) == cueType
    ensures GetBE16(EmptyPcob(cueType), 18) == GetBE16(EmptyPco2(cueType), 18) == 0
    ensures GetBE32(EmptyPcob(cueType), 20) == 0xFFFF_FFFF
    ensures |PcobSection(cues)| >= 24 && GetBE32(PcobSection(cues), 12) == 1
    ensures GetBE16(PcobSection(cues), 18) == |cues| && GetBE32(PcobSection(cues), 20) == 0xFFFF_FFFF
    ensures |Pco2Section(cues, hot)| >= 20 && GetBE32(Pco2Section(cues, hot), 12) == (if hot then 1 else 0)
    ensures GetBE16(Pco2Section(cues, hot), 18) == |cues|
  {
    hide BE32, GetBE32, BE16, GetBE16, Entries, DeclaredTotal;
    ListHead(EmptyPcob(cueType), cueType, 0);
    ListHead(EmptyPco2(cueType), cueType, 0);
    ListHead(PcobSection(cues), 1, |cues|);
    ListHead(Pco2Section(cues, hot), if hot then 1 else 0, |cues|);
    assert EmptyPcob(cueType)[20..24] == PcobSection(cues)[20..24] == BE32(0xFFFF_FFFF);
    ReadBE32(EmptyPcob(cueType), 20, 0xFFFF_FFFF);
    ReadBE32(PcobSection(cues), 20, 0xFFFF_FFFF);
  }

  lemma ListHead(s: bytes, kind: nat, n: nat)
    requires |s| >= 20 && s[12..16] == BE32(kind) && s[18..20] == BE16(n) && kind < U32_LIMIT && n < U16_LIMIT
    ensures GetBE32(s, 12) == kind && GetBE16(s, 18) == n
  {
    hide BE32, GetBE32, BE16, GetBE16;
    ReadBE32(s, 12, kind);
    ReadBE16(s, 18, n);
  }

  // ---- Files ------------------------------------------------------------------------------------------

  // The file header: its length, that of the file, and fixed numbers.
  lemma FileHead(sections: seq<bytes>)
    requires 28 + |Concat(sections)| < U32_LIMIT
    ensures var file := FileOf(sections);
      && |file| == 28 + |Concat(sections)| && file[0..4] == [0x50, 0x4D, 0x41, 0x49]
      && GetBE32(file, 4) == 28 && GetBE32(file, 8) == |file| && GetBE32(file, 12) == 1
      && GetBE32(file, 16) == GetBE32(file, 20) == 0x1_0000 && GetBE32(file, 24) == 0
  {
    hide BE32, GetBE32;
    var file, h := FileOf(sections), PmaiHeader(28 + |Concat(sections)|);
    assert h[4..8] == BE32(28) && h[8..12] == BE32(|file|) && h[12..16] == BE32(1) && h[24..28] == BE32(0);
    assert h[16..20] == h[20..24] == BE32(0x1_0000);
    assert file[4..8] == h[4..8] && file[8..12] == h[8..12] && file[12..16] == h[12..16] && file[0..4] == h[0..4];
    assert file[16..20] == h[16..20] && file[20..24] == h[20..24] && file[24..28] == h[24..28];
    ReadBE32(file, 4, 28);
    ReadBE32(file, 8, |file|);
    ReadBE32(file, 12, 1);
    ReadBE32(file, 16, 0x1_0000);
    ReadBE32(file, 20, 0x1_0000);
    ReadBE32(file, 24, 0);
  }

  // In the .DAT file the seek index is that of the track's size and sample count, and of
  // the two empty cue lists the first is for hot cues.
  lemma DatSays(beats: seq<BeatGrid.Beat>, w: Waveform, path: string, size: nat, samples: nat)
    requires |beats| < U32_LIMIT / 8 - 3
    ensures var s := DatSections(beats, w, path, size, samples);
      |s| == 7 && |s[1]| == 1620 && |s[2]| >= 24 && |s[5]| == |s[6]| == 24 && ListsAndCounts(s, |beats|, size, samples)
  {
    hide GetBE32, PpthSection, PvbrSection, PqtzSection, PwavSection, Pwv2Section, EmptyPcob;
    EmptyLists();
    PvbrReads(size, samples, 0);
    if size < 0x1_0000_0000 {
      SeekOffsetIs(size, samples, 200);
      Halfway(size);
    }
    PqtzSays(beats);
    CueListHeads(1, [], true);
    CueListHeads(0, [], true);
  }

  lemma EmptyLists()
    ensures |EmptyPcob(1)| == |EmptyPcob(0)| == 24
  {}

  predicate ListsAndCounts(s: seq<bytes>, beats: nat, size: nat, samples: nat)
    requires |s| == 7 && |s[1]| == 1620 && |s[2]| >= 24 && |s[5]| == |s[6]| == 24
  {
    && GetBE32(s[1], 1616) == samples % 0x1_0000_0000
    && (size < 0x1_0000_0000 ==> GetBE32(s[1], 16 + 4 * 200) == size / 2)
    && GetBE32(s[2], 20) == beats && GetBE32(s[5], 12) == 1 && GetBE32(s[6], 12) == 0
  }

  lemma Halfway(size: nat)
    requires size < 0x1_0000_0000
    ensures size * 200 / 400 % 0x1_0000_0000 == size / 2
  {}

  // A section is a cue list of this kind and length.
  predicate IsList(s: bytes, tag: bytes, kind: nat, n: nat) {
    |s| >= 20 && s[0..4] == tag && GetBE32(s, 12) == kind && GetBE16(s, 18) == n
  }

  lemma ListsAre(cues: seq<Cue>, hot: bool)
    requires |cues| < U16_LIMIT
    ensures IsList(PcobSection(cues), PCOB, 1, |cues|)
    ensures IsList(Pco2Section(cues, hot), PCO2, if hot then 1 else 0, |cues|)
    ensures IsList(EmptyPcob(0), PCOB, 0, 0) && IsList(EmptyPco2(0), PCO2, 0, 0)
  {
    hide GetBE32, BE32, GetBE16, BE16, Entries, DeclaredTotal;
    CueListHeads(0, cues, hot);
  }

  // The lists of an .EXT file with cues: all cues as basic hot cues and an empty memory
  // list; then the extended lists of hot and of memory cues, each if there are any, and an
  // empty one.
  lemma ExtSays(w: Waveform, path: string, cues: seq<Cue>)
    requires cues != [] && |cues| < U16_LIMIT
    ensures var s, hots := ExtSections(w, path, cues), KeptBefore(cues, true, |cues|);
      var memories, k := KeptBefore(cues, false, |cues|), if hots > 0 then 1 else 0;
      && hots + memories == |cues| && |s| == 7 + k + (if memories > 0 then 1 else 0)
      && IsList(s[2], PCOB, 1, |cues|) && IsList(s[3], PCOB, 0, 0)
      && (hots > 0 ==> IsList(s[4], PCO2, 1, hots)) && (memories > 0 ==> IsList(s[4 + k], PCO2, 0, memories))
      && IsList(s[|s| - 3], PCO2, 0, 0)
  {
    hide IsList, PpthSection, Pwv3Section, PcobSection, EmptyPcob, Pco2Section, EmptyPco2, Pwv5Section, Pwv4Section;
    KeptCount(cues, true);
    KeptCount(cues, false);
    KeptSplit(cues, |cues|);
    ListsAre(cues, true);
    ListsAre(Kept(cues, true), true);
    ListsAre(Kept(cues, false), false);
  }

  lemma {:induction false} KeptSplit(cues: seq<Cue>, n: nat)
    requires n <= |cues|
    ensures KeptBefore(cues, true, n) + KeptBefore(cues, false, n) == n
  {
    if n > 0 { KeptSplit(cues, n - 1); }
  }
}
