// crates/bvault-hash/src/lib.rs: the identity of a file's content, computed from a sample
// of its head and its length, in one call or while the bytes stream past. xxh3_64 is left
// open: everything here holds for any function of bytes.
module ContentHash {
  import opened Bytes

  type Digest = bytes -> nat

  const U64_LIMIT: nat := 0x1_0000_0000_0000_0000
  const SAMPLE_BYTES: nat := 1024 * 1024

  function Sample(data: bytes): bytes {
    data[..Least(|data|, SAMPLE_BYTES)]
  }

  function LE64(x: nat): bytes {
    LE32(x % U32_LIMIT) + LE32(x / U32_LIMIT % U32_LIMIT)
  }

  function HashBytes(xxh3: Digest, data: bytes): nat {
    xxh3(Sample(data) + LE64(|data|))
  }

  class ContentHasher {
    var sample: bytes
    var total: nat
    ghost var seen: bytes

    ghost predicate Valid()
      reads this
    {
      sample == Sample(seen) && total == |seen|
    }

    constructor ()
      ensures Valid() && seen == []
    {
      sample, total, seen := [], 0, [];
    }

    method Update(data: bytes)
      requires Valid()
      modifies this
      ensures Valid() && seen == old(seen) + data
    {
      SampleGrows(seen, data);
      total := total + |data|;
      if |sample| < SAMPLE_BYTES {
        var take := Least(SAMPLE_BYTES - |sample|, |data|);
        sample := sample + data[..take];
      }
      seen := seen + data;
    }

    // The same value as hashing everything that has been seen in one call.
    method Finalize(xxh3: Digest) returns (hash: nat)
      requires Valid()
      modifies this
      ensures hash == HashBytes(xxh3, old(seen))
    {
      sample := sample + LE64(total);
      hash := xxh3(sample);
    }
  }

  lemma SampleGrows(seen: bytes, data: bytes)
    ensures |Sample(seen)| < SAMPLE_BYTES ==>
      Sample(seen + data) == Sample(seen) + data[..Least(SAMPLE_BYTES - |Sample(seen)|, |data|)]
    ensures |Sample(seen)| >= SAMPLE_BYTES ==> Sample(seen + data) == Sample(seen)
  {}

  // Streaming gives the one-shot hash, however the content is cut into chunks.
  method HashStream(xxh3: Digest, chunks: seq<bytes>) returns (hash: nat)
    ensures hash == HashBytes(xxh3, Concat(chunks))
  {
    var hasher := new ContentHasher();
    for i := 0 to |chunks|
      invariant hasher.Valid() && hasher.seen == Concat(chunks[..i])
    {
      assert chunks[..i + 1] == chunks[..i] + [chunks[i]];
      ConcatSnoc(chunks[..i], chunks[i]);
      hasher.Update(chunks[i]);
    }
    assert chunks[..|chunks|] == chunks;
    hash := hasher.Finalize(xxh3);
  }

  // The number whose bytes these are, lowest first.
  function FromBytes(b: bytes): nat {
    if b == [] then 0 else b[0] + 0x100 * FromBytes(b[1..])
  }

  // x is what has to be hashed for this content: its first MiB, or all of it if it is
  // shorter, and eight bytes that say how long it is.
  ghost predicate Identifies(x: bytes, data: bytes) {
    && |x| >= 8 && |x| - 8 <= |data|
    && (|x| - 8 == 1_048_576 || (|x| - 8 < 1_048_576 && |x| - 8 == |data|))
    && x[..|x| - 8] == data[..|x| - 8] && FromBytes(x[|x| - 8..]) == |data|
  }

  // The digest is given exactly that, whatever the digest is.
  lemma HashesHeadAndLength(data: bytes) returns (x: bytes)
    requires |data| < U64_LIMIT
    ensures Identifies(x, data)
    ensures forall xxh3: Digest :: HashBytes(xxh3, data) == xxh3(x)
  {
    x := Sample(data) + LE64(|data|);
    assert x[|x| - 8..] == LE64(|data|);
    LE64Reads(|data|);
  }

  lemma LE64Reads(n: nat)
    requires n < U64_LIMIT
    ensures FromBytes(LE64(n)) == n
  {
    hide LE32;
    var low, high := LE32(n % U32_LIMIT), LE32(n / U32_LIMIT % U32_LIMIT);
    FromBytesSplit(low, high);
    LE32Reads(n % U32_LIMIT);
    LE32Reads(n / U32_LIMIT % U32_LIMIT);
    assert 0x100 * 0x100 * 0x100 * 0x100 == U32_LIMIT;
    assert n == n % U32_LIMIT + U32_LIMIT * (n / U32_LIMIT);
  }

  lemma FromBytesSplit(low: bytes, high: bytes)
    requires |low| == 4
    ensures FromBytes(low + high) == FromBytes(low) + U32_LIMIT * FromBytes(high)
  {
    var b := low + high;
    assert b[1..][1..][1..][1..] == high;
    assert FromBytes(b) == b[0] + 0x100 * (b[1] + 0x100 * (b[2] + 0x100 * (b[3] + 0x100 * FromBytes(high)))) by {
      FourRead(b);
    }
    assert low[1..][1..][1..][1..] == [];
    FourRead(low);
  }

  lemma FourRead(b: bytes)
    requires |b| >= 4
    ensures FromBytes(b) == b[0] + 0x100 * (b[1] + 0x100 * (b[2] + 0x100 * (b[3] + 0x100 * FromBytes(b[4..]))))
  {
    assert b[1..][1..] == b[2..] && b[2..][1..] == b[3..] && b[3..][1..] == b[4..];
    assert FromBytes(b[3..]) == b[3] + 0x100 * FromBytes(b[4..]);
    assert FromBytes(b[2..]) == b[2] + 0x100 * FromBytes(b[3..]);
    assert FromBytes(b[1..]) == b[1] + 0x100 * FromBytes(b[2..]);
  }

  lemma LE32Reads(n: nat)
    requires n < U32_LIMIT
    ensures FromBytes(LE32(n)) == n
  {
    hide B0, B1, B2, B3;
    SplitU32(n);
    FourRead(LE32(n));
    assert LE32(n)[4..] == [];
  }

  // What is hashed determines the length and the first MiB.
  lemma HashedBytesDetermineSample(x: bytes, a: bytes, b: bytes)
    requires Identifies(x, a) && Identifies(x, b)
    ensures |a| == |b| && forall k :: 0 <= k < |a| && k < 1_048_576 ==> a[k] == b[k]
  {
    var n := |x| - 8;
    forall k | 0 <= k < |a| && k < 1_048_576
      ensures a[k] == b[k]
    {
      assert a[..n][k] == x[..n][k] == b[..n][k];
    }
  }

  // And nothing else is looked at: content that differs after that has the same identity.
  lemma OnlyHeadAndLengthMatter(xxh3: Digest, a: bytes, b: bytes)
    requires |a| == |b| && forall k :: 0 <= k < |a| && k < 1_048_576 ==> a[k] == b[k]
    ensures HashBytes(xxh3, a) == HashBytes(xxh3, b)
  {
    assert Sample(a) == Sample(b);
  }

  // The digest gives the same value for the different bytes that stand for two contents.
  ghost predicate Collides(xxh3: Digest, a: bytes, b: bytes) {
    exists x, y :: Identifies(x, a) && Identifies(y, b) && x != y && xxh3(x) == xxh3(y)
  }

  // Two contents have the same identity exactly when they agree in length and in their
  // first MiB, unless the digest itself collides.
  lemma SameIdentityExactly(xxh3: Digest, a: bytes, b: bytes)
    requires |a| < U64_LIMIT && |b| < U64_LIMIT && !Collides(xxh3, a, b)
    ensures HashBytes(xxh3, a) == HashBytes(xxh3, b) <==>
      |a| == |b| && forall k :: 0 <= k < |a| && k < 1_048_576 ==> a[k] == b[k]
  {
    hide HashBytes;
    var x := HashesHeadAndLength(a);
    var y := HashesHeadAndLength(b);
    assert HashBytes(xxh3, a) == xxh3(x) && HashBytes(xxh3, b) == xxh3(y);
    if x == y {
      HashedBytesDetermineSample(x, a, b);
    }
    if |a| == |b| && forall k :: 0 <= k < |a| && k < 1_048_576 ==> a[k] == b[k] {
      OnlyHeadAndLengthMatter(xxh3, a, b);
    }
  }

  // ---- The hexadecimal form ------------------------------------------------------------------

  function HexDigit(d: nat): char
    requires d < 16
  {
    "0123456789abcdef"[d]
  }

  function HexDigits(n: nat, width: nat): (s: string)
    ensures |s| == width
  {
    if width == 0 then [] else HexDigits(n / 16, width - 1) + [HexDigit(n % 16)]
  }

  // format!("{hash:016x}")
  function HashHex(hash: nat): string {
    HexDigits(hash, 16)
  }

  function DigitValue(c: char): nat {
    if '0' <= c <= '9' then (c - '0') as nat
    else if 'a' <= c <= 'f' then (c - 'a') as nat + 10
    else 0
  }

  // from_str_radix(s, 16) of lower-case digits.
  function ParseHex(s: string): nat {
    if s == [] then 0 else 16 * ParseHex(s[..|s| - 1]) + DigitValue(s[|s| - 1])
  }

  function Power16(n: nat): nat {
    if n == 0 then 1 else 16 * Power16(n - 1)
  }

  lemma {:induction false} HexParses(n: nat, width: nat)
    requires n < Power16(width)
    ensures ParseHex(HexDigits(n, width)) == n
  {
    if width > 0 {
      HexParses(n / 16, width - 1);
      var s := HexDigits(n, width);
      assert s[..|s| - 1] == HexDigits(n / 16, width - 1);
      DigitParses(n % 16);
    }
  }

  lemma DigitParses(d: nat)
    requires d < 16
    ensures DigitValue(HexDigit(d)) == d
  {}

  // A 64-bit hash has 16 digits and is read back from them.
  lemma HashHexParses(hash: nat)
    requires hash < U64_LIMIT
    ensures |HashHex(hash)| == 16 && ParseHex(HashHex(hash)) == hash
  {
    assert Power16(8) == U32_LIMIT;
    assert Power16(16) == U64_LIMIT;
    HexParses(hash, 16);
  }
}
