// Little-endian integers in byte sequences, and overwriting a slice.
module Bytes {
  type byte = x: int | 0 <= x < 0x100
  type bytes = seq<byte>

  const U16_LIMIT: nat := 0x1_0000
  const U32_LIMIT: nat := 0x1_0000_0000

  function Least(a: nat, b: nat): nat {
    if a <= b then a else b
  }

  // Byte k of x, counted from the least significant one.
  function B0(x: nat): byte { x % 0x100 }
  function B1(x: nat): byte { x / 0x100 % 0x100 }
  function B2(x: nat): byte { x / 0x1_0000 % 0x100 }
  function B3(x: nat): byte { x / 0x100_0000 % 0x100 }

  // to_le_bytes, after the truncation of an `as u16` or `as u32` cast.
  function LE16(x: nat): (r: bytes)
    ensures |r| == 2
  {
    [B0(x), B1(x)]
  }

  function LE32(x: nat): (r: bytes)
    ensures |r| == 4
  {
    [B0(x), B1(x), B2(x), B3(x)]
  }

  function Get16(b: bytes, at: nat): nat
    requires at + 2 <= |b|
  {
    b[at] as int + 0x100 * b[at + 1] as int
  }

  function Get24(b: bytes, at: nat): nat
    requires at + 3 <= |b|
  {
    b[at] as int + 0x100 * b[at + 1] as int + 0x1_0000 * b[at + 2] as int
  }

  function Get32(b: bytes, at: nat): nat
    requires at + 4 <= |b|
  {
    b[at] as int + 0x100 * b[at + 1] as int + 0x1_0000 * b[at + 2] as int + 0x100_0000 * b[at + 3] as int
  }

  lemma SplitU16(x: nat)
    requires x < U16_LIMIT
    ensures x == B0(x) + 0x100 * B1(x)
  {}

  lemma SplitU24(x: nat)
    requires x < 0x100_0000
    ensures x == B0(x) + 0x100 * B1(x) + 0x1_0000 * B2(x)
  {
    assert x / 0x100 == B1(x) + 0x100 * (x / 0x1_0000);
  }

  lemma SplitU32(x: nat)
    requires x < U32_LIMIT
    ensures x == B0(x) + 0x100 * B1(x) + 0x1_0000 * B2(x) + 0x100_0000 * B3(x)
  {
    assert x / 0x100 == B1(x) + 0x100 * (x / 0x1_0000);
    assert x / 0x1_0000 == B2(x) + 0x100 * (x / 0x100_0000);
  }

  // What is stored at an offset reads back, as long as it was not truncated.
  lemma ReadLE16(b: bytes, at: nat, x: nat)
    requires at + 2 <= |b| && b[at..at + 2] == LE16(x) && x < U16_LIMIT
    ensures Get16(b, at) == x
  {
    assert b[at] == b[at..at + 2][0] && b[at + 1] == b[at..at + 2][1];
    SplitU16(x);
  }

  lemma ReadLE32(b: bytes, at: nat, x: nat)
    requires at + 4 <= |b| && b[at..at + 4] == LE32(x) && x < U32_LIMIT
    ensures Get32(b, at) == x
  {
    var s := b[at..at + 4];
    assert b[at] == s[0] && b[at + 1] == s[1] && b[at + 2] == s[2] && b[at + 3] == s[3];
    SplitU32(x);
  }

  function Zeros(n: nat): (r: bytes)
    ensures |r| == n && forall k :: 0 <= k < n ==> r[k] == 0
  {
    seq(n, _ => 0)
  }

  // copy_from_slice into a value.
  function Put(b: bytes, at: nat, src: bytes): (r: bytes)
    requires at + |src| <= |b|
    ensures |r| == |b|
    ensures forall k :: 0 <= k < |b| ==> r[k] == if at <= k < at + |src| then src[k - at] else b[k]
  {
    seq(|b|, k requires 0 <= k < |b| => if at <= k < at + |src| then src[k - at] else b[k])
  }

  lemma SubSlice(s: bytes, lo: nat, hi: nat, from: nat, to: nat)
    requires lo <= hi <= |s| && from <= to <= hi - lo
    ensures s[lo..hi][from..to] == s[lo + from..lo + to]
  {
    forall k | 0 <= k < to - from
      ensures s[lo..hi][from..to][k] == s[lo + from..lo + to][k]
    {
      assert s[lo..hi][from..to][k] == s[lo..hi][from + k] == s[lo + from + k];
    }
    assert s[lo..hi][from..to] == s[lo + from..lo + to];
  }

  lemma PutAfter(a: bytes, b: bytes, src: bytes)
    requires |src| <= |b|
    ensures Put(a + b, |a|, src) == a + src + b[|src|..]
  {}

  lemma PutMiddle(a: bytes, m: bytes, c: bytes, src: bytes)
    requires |src| == |m|
    ensures Put(a + m + c, |a|, src) == a + src + c
  {}

  lemma PutPut(b: bytes, at: nat, x: bytes, off: nat, y: bytes)
    requires at + |x| <= |b| && off + |y| <= |x|
    ensures Put(Put(b, at, x), at + off, y) == Put(b, at, Put(x, off, y))
  {}

  lemma PutAdjacent(b: bytes, at: nat, x: bytes, y: bytes)
    requires at + |x| + |y| <= |b|
    ensures Put(Put(b, at, x), at + |x|, y) == Put(b, at, x + y)
  {}

  lemma PutBefore(b: bytes, at: nat, x: bytes, y: bytes)
    requires at + |x| + |y| <= |b|
    ensures Put(Put(b, at + |x|, y), at, x) == Put(b, at, x + y)
  {}

  lemma ZerosSplit(n: nat, m: nat)
    ensures Zeros(n) + Zeros(m) == Zeros(n + m)
    ensures Zeros(n + m)[n..] == Zeros(m)
  {}

  // copy_from_slice into a buffer.
  method CopyInto(a: array<byte>, at: nat, src: bytes)
    requires at + |src| <= a.Length
    modifies a
    ensures a[..] == Put(old(a[..]), at, src)
  {
    forall k | 0 <= k < |src| {
      a[at + k] := src[k];
    }
  }

  function Concat(parts: seq<bytes>): bytes
  {
    if parts == [] then [] else parts[0] + Concat(parts[1..])
  }

  lemma {:induction false} ConcatAppend(a: seq<bytes>, b: seq<bytes>)
    ensures Concat(a + b) == Concat(a) + Concat(b)
  {
    if a == [] {
      assert a + b == b;
    } else {
      assert (a + b)[1..] == a[1..] + b;
      ConcatAppend(a[1..], b);
    }
  }

  lemma ConcatSnoc(a: seq<bytes>, x: bytes)
    ensures Concat(a + [x]) == Concat(a) + x
  {
    ConcatAppend(a, [x]);
    assert Concat([x]) == x;
  }

  // Part k of a concatenation starts after the parts before it.
  lemma ConcatPart(parts: seq<bytes>, k: nat)
    requires k < |parts|
    ensures |Concat(parts[..k])| + |parts[k]| <= |Concat(parts)|
    ensures Concat(parts)[|Concat(parts[..k])|..|Concat(parts[..k])| + |parts[k]|] == parts[k]
    ensures parts[k] <= Concat(parts)[|Concat(parts[..k])|..]
  {
    assert parts == parts[..k] + ([parts[k]] + parts[k + 1..]);
    ConcatAppend(parts[..k], [parts[k]] + parts[k + 1..]);
    assert ([parts[k]] + parts[k + 1..])[1..] == parts[k + 1..];
    assert Concat(parts) == Concat(parts[..k]) + (parts[k] + Concat(parts[k + 1..]));
  }
}
