// DeviceSQL strings: the three encodings of crates/bvault-core/src/string.rs and a
// decoder that reads one string off the front of a buffer. Dafny's char is a Unicode
// scalar value, as the characters of a Rust str are.
module DeviceString {
  import opened Wrappers
  import opened Bytes

  const MAX_SHORT_ASCII_LEN: nat := 126
  const FLAG_LONG_ASCII: byte := 0x40
  const FLAG_UTF16LE: byte := 0x90

  predicate IsAscii(s: string) {
    forall k :: 0 <= k < |s| ==> s[k] as int < 0x80
  }

  function AsciiBytes(s: string): (r: bytes)
    requires IsAscii(s)
    ensures |r| == |s| && forall k :: 0 <= k < |s| ==> r[k] == s[k] as int
  {
    if s == "" then [] else [s[0] as int] + AsciiBytes(s[1..])
  }

  // The code units of one scalar value (section 2.1 of RFC 2781).
  function Utf16Units(c: char): (r: seq<nat>)
    ensures 1 <= |r| <= 2
    ensures forall u :: u in r ==> u < U16_LIMIT
  {
    var v := c as int;
    if v < 0x1_0000 then [v] else [0xD800 + (v - 0x1_0000) / 0x400, 0xDC00 + (v - 0x1_0000) % 0x400]
  }

  function Utf16(s: string): (r: seq<nat>)
    ensures forall u :: u in r ==> u < U16_LIMIT
    ensures |s| <= |r| <= 2 * |s|
  {
    if s == "" then [] else Utf16Units(s[0]) + Utf16(s[1..])
  }

  function UnitBytes(units: seq<nat>): (r: bytes)
    ensures |r| == 2 * |units|
  {
    if units == [] then [] else LE16(units[0]) + UnitBytes(units[1..])
  }

  function LongHeader(flag: byte, total: nat): (r: bytes)
    ensures |r| == 4
  {
    [flag, B0(total), B1(total), 0x00]
  }

  // Total length the encoding needs, before the 16-bit truncation of the length field.
  function EncodedLength(s: string): nat {
    if s == "" then 1
    else if IsAscii(s) && |s| <= MAX_SHORT_ASCII_LEN then |s| + 1
    else if IsAscii(s) then 4 + |s|
    else 4 + 2 * |Utf16(s)|
  }

  function Encoded(s: string): (r: bytes)
    ensures |r| == EncodedLength(s)
  {
    if s == "" then [0x03]
    else if IsAscii(s) && |s| <= MAX_SHORT_ASCII_LEN then [2 * (|s| + 1) + 1] + AsciiBytes(s)
    else if IsAscii(s) then LongHeader(FLAG_LONG_ASCII, 4 + |s|) + AsciiBytes(s)
    else LongHeader(FLAG_UTF16LE, 4 + 2 * |Utf16(s)|) + UnitBytes(Utf16(s))
  }

  // Which format a string gets, as its first byte says: 0x03 for the empty string, an odd
  // byte with the length for up to 126 ASCII characters, 0x40 for more of them, and 0x90
  // for any other text.
  lemma FormatOf(s: string)
    ensures var first, ascii := Encoded(s)[0], forall k :: 0 <= k < |s| ==> s[k] < 128 as char;
      && (s == "" ==> Encoded(s) == [0x03])
      && (0 < |s| <= 126 && ascii ==> first as int == 2 * |s| + 3 && |Encoded(s)| == |s| + 1)
      && (|s| > 126 && ascii ==> first == 0x40 && |Encoded(s)| == |s| + 4 && Encoded(s)[3] == 0)
      && (!ascii ==> first == 0x90 && |Encoded(s)| == 4 + 2 * |Utf16(s)| && Encoded(s)[3] == 0)
  {
    hide Utf16, UnitBytes, AsciiBytes;
  }

  method EncodeUtf16Le(s: string) returns (r: bytes)
    ensures r == LongHeader(FLAG_UTF16LE, 4 + 2 * |Utf16(s)|) + UnitBytes(Utf16(s))
  {
    var units := Utf16(s);
    var total := 4 + |units| * 2;
    r := [FLAG_UTF16LE, total % 0x100, total / 0x100 % 0x100, 0x00];
    for k := 0 to |units|
      invariant r + UnitBytes(units[k..]) == LongHeader(FLAG_UTF16LE, total) + UnitBytes(units)
    {
      assert units[k..][1..] == units[k + 1..];
      ghost var before := r;
      r := r + [units[k] % 0x100];
      r := r + [units[k] / 0x100 % 0x100];
      assert r == before + LE16(units[k]);
    }
    assert units[|units|..] == [];
  }

  method EncodeString(s: string) returns (r: bytes)
    ensures r == Encoded(s)
  {
    if s == "" {
      return [0x03];
    }
    if IsAscii(s) && |s| <= MAX_SHORT_ASCII_LEN {
      var total := |s| + 1;
      r := [(total % 0x100 * 2) % 0x100 + 1] + AsciiBytes(s);
    } else if IsAscii(s) {
      r := LongHeader(FLAG_LONG_ASCII, 4 + |s|) + AsciiBytes(s);
    } else {
      r := EncodeUtf16Le(s);
    }
  }

  // ---- Decoding -------------------------------------------------------------

  predicate IsScalar(v: int) {
    0 <= v < 0xD800 || 0xE000 <= v < 0x11_0000
  }

  function DecodeAscii(b: bytes): Option<string> {
    if forall k :: 0 <= k < |b| ==> b[k] < 0x80
    then Some(seq(|b|, k requires 0 <= k < |b| && b[k] < 0x80 => b[k] as char))
    else None
  }

  // Scalars of a UTF-16LE byte string; None on an unpaired surrogate or an odd byte.
  function DecodeUtf16(b: bytes): Option<string> {
    if b == [] then Some("")
    else if |b| == 1 then None
    else
      var u := Get16(b, 0);
      if !(0xD800 <= u < 0xE000) then
        match DecodeUtf16(b[2..])
        case None => None
        case Some(rest) => Some([u as char] + rest)
      else if u < 0xDC00 && |b| >= 4 && 0xDC00 <= Get16(b, 2) < 0xE000 then
        match DecodeUtf16(b[4..])
        case None => None
        case Some(rest) => Some([(0x1_0000 + (u - 0xD800) * 0x400 + (Get16(b, 2) - 0xDC00)) as char] + rest)
      else None
  }

  // One string from the front of b, and how many bytes it takes.
  function Decode(b: bytes): Option<(string, nat)> {
    if |b| == 0 then None
    else if b[0] % 2 == 1 then
      var total := b[0] / 2;
      if total == 0 || |b| < total then None
      else match DecodeAscii(b[1..total])
        case None => None
        case Some(s) => Some((s, total))
    else if |b| < 4 then None
    else
      var total := Get16(b, 1);
      if total < 4 || |b| < total then None
      else
        var body := if b[0] == FLAG_LONG_ASCII then DecodeAscii(b[4..total])
                    else if b[0] == FLAG_UTF16LE then DecodeUtf16(b[4..total])
                    else None;
        match body
        case None => None
        case Some(s) => Some((s, total))
  }

  lemma AsciiDecodes(s: string)
    requires IsAscii(s)
    ensures DecodeAscii(AsciiBytes(s)) == Some(s)
  {
    var b := AsciiBytes(s);
    assert DecodeAscii(b).Some? && DecodeAscii(b).value == s;
  }

  lemma {:induction false} Utf16Decodes(s: string)
    ensures DecodeUtf16(UnitBytes(Utf16(s))) == Some(s)
  {
    if s != "" {
      var c, rest := s[0], s[1..];
      Utf16Decodes(rest);
      var units := Utf16Units(c);
      var tail := UnitBytes(Utf16(rest));
      var b := UnitBytes(Utf16(s));
      assert Utf16(s)[0] == units[0];
      if |units| == 1 {
        assert Utf16(s)[1..] == Utf16(rest);
        assert b == LE16(units[0]) + tail && b[2..] == tail;
        SplitU16(units[0]);
      } else {
        assert Utf16(s)[1..][0] == units[1] && Utf16(s)[1..][1..] == Utf16(rest);
        assert b == LE16(units[0]) + (LE16(units[1]) + tail) && b[4..] == tail;
        SplitU16(units[0]);
        SplitU16(units[1]);
      }
      assert s == [c] + rest;
    }
  }

  // Every encoded string is self-delimiting: whatever follows it, it reads back, and
  // its own length is recovered. The length field is 16 bits wide, hence the bound.
  lemma EncodingDecodes(s: string, suffix: bytes)
    requires EncodedLength(s) < U16_LIMIT
    ensures Decode(Encoded(s) + suffix) == Some((s, EncodedLength(s)))
  {
    hide DecodeAscii, DecodeUtf16, Utf16, UnitBytes, LongHeader, AsciiBytes, B0, B1;
    if s == "" {
      assert (Encoded(s) + suffix)[1..1] == AsciiBytes("");
      AsciiDecodes("");
    } else if IsAscii(s) {
      AsciiDecodes(s);
      if |s| <= MAX_SHORT_ASCII_LEN {
        assert (Encoded(s) + suffix)[1..|s| + 1] == AsciiBytes(s);
      } else {
        LongStringDecodes(s, FLAG_LONG_ASCII, AsciiBytes(s), suffix);
      }
    } else {
      Utf16Decodes(s);
      LongStringDecodes(s, FLAG_UTF16LE, UnitBytes(Utf16(s)), suffix);
    }
  }

  // The two formats with a four-byte header.
  lemma LongStringDecodes(s: string, flag: byte, body: bytes, suffix: bytes)
    requires 4 + |body| < U16_LIMIT && flag in {FLAG_LONG_ASCII, FLAG_UTF16LE}
    requires (if flag == FLAG_LONG_ASCII then DecodeAscii(body) else DecodeUtf16(body)) == Some(s)
    ensures Decode(LongHeader(flag, 4 + |body|) + body + suffix) == Some((s, 4 + |body|))
  {
    hide DecodeAscii, DecodeUtf16, B0, B1;
    var total := 4 + |body|;
    var b := LongHeader(flag, total) + body + suffix;
    assert b[0] == flag && b[1] == B0(total) && b[2] == B1(total);
    SplitU16(total);
    assert b[4..total] == body;
  }

  // The bound is exact: at 65536 bytes or more the truncated length field no longer
  // leads past the whole string.
  lemma TooLongDoesNotDecode(s: string)
    requires EncodedLength(s) >= U16_LIMIT
    ensures Decode(Encoded(s)) != Some((s, EncodedLength(s)))
  {
    var b := Encoded(s);
    if Decode(b).Some? {
      assert Decode(b).value.1 < U16_LIMIT;
    }
  }
}
