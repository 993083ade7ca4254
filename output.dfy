/**
 * How results leave the module: the digest text as a zero-terminated byte
 * string (the host finds its end by scanning for the first zero and frees one
 * byte more than it read), and the verdict as a little-endian `u32`.
 */
module Output {
  import opened Foreign

  /** `digest.push(0)`: the bytes `hash` copies into the output region. */
  function NullTerminated(digest: seq<byte>): (buf: seq<byte>)
    ensures |buf| == |digest| + 1
    ensures buf[..|digest|] == digest && buf[|digest|] == 0
  {
    digest + [0]
  }

  /**
   * The host's reading of an output region: the bytes before the first zero,
   * or all of them when there is none.
   */
  function ScanToZero(mem: seq<byte>): (r: seq<byte>)
    ensures |r| <= |mem| && r == mem[..|r|]
    ensures 0 !in r
    ensures |r| < |mem| ==> mem[|r|] == 0
  {
    if mem == [] || mem[0] == 0 then [] else [mem[0]] + ScanToZero(mem[1..])
  }

  /**
   * A digest without zero bytes survives the trip: scanning the region `hash`
   * fills, whatever lies after it in memory, gives back the digest, and the
   * host's free length (bytes read plus the terminator) is the region's size.
   */
  lemma {:induction false} OutputRoundTrip(digest: seq<byte>, beyond: seq<byte>)
    requires 0 !in digest
    ensures ScanToZero(NullTerminated(digest) + beyond) == digest
    ensures |ScanToZero(NullTerminated(digest) + beyond)| + 1 == |NullTerminated(digest)|
  {
    var mem := NullTerminated(digest) + beyond;
    if digest != [] {
      assert digest[0] in digest;
      assert mem[1..] == NullTerminated(digest[1..]) + beyond;
      OutputRoundTrip(digest[1..], beyond);
    }
  }

  /**
   * The format is not binary safe: a digest holding a zero byte is cut at its
   * first zero, and the host would then free fewer bytes than were allocated.
   */
  lemma {:induction false} OutputTruncatedAtZero(digest: seq<byte>, k: nat)
    requires k < |digest| && digest[k] == 0 && 0 !in digest[..k]
    ensures ScanToZero(NullTerminated(digest)) == digest[..k]
    ensures |ScanToZero(NullTerminated(digest))| + 1 < |NullTerminated(digest)|
  {
  }

  /** A `u32` as wasm stores it: four bytes, least significant first. */
  function U32ToLE(v: u32): (b: seq<byte>)
    ensures |b| == 4
  {
    var x := v as int;
    [(x % 0x100) as byte, (x / 0x100 % 0x100) as byte, (x / 0x1_0000 % 0x100) as byte, (x / 0x100_0000) as byte]
  }

  /** A `u32` as the host reads it back: `getUint32(ptr, true)`. */
  function LEToU32(b: seq<byte>): (v: u32)
    requires |b| == 4
  {
    (b[0] as int + 0x100 * b[1] as int + 0x1_0000 * b[2] as int + 0x100_0000 * b[3] as int) as u32
  }

  lemma LERoundTrip(v: u32)
    ensures LEToU32(U32ToLE(v)) == v
  {
    var x := v as int;
    assert x == x % 0x100 + 0x100 * (x / 0x100);
    assert x / 0x100 == x / 0x100 % 0x100 + 0x100 * (x / 0x1_0000);
    assert x / 0x1_0000 == x / 0x1_0000 % 0x100 + 0x100 * (x / 0x100_0000);
  }

  lemma LEDecodeRoundTrip(b: seq<byte>)
    requires |b| == 4
    ensures U32ToLE(LEToU32(b)) == b
  {
    var x := LEToU32(b) as int;
    assert x % 0x100 == b[0] as int;
    assert x / 0x100 == b[1] as int + 0x100 * b[2] as int + 0x1_0000 * b[3] as int;
    assert x / 0x1_0000 == b[2] as int + 0x100 * b[3] as int;
    assert x / 0x100_0000 == b[3] as int;
  }

  /** `password_valid as u32`. */
  function VerdictWord(valid: bool): (w: u32)
    ensures w == 0 || w == 1
    ensures w == 1 <==> valid
  {
    if valid then 1 else 0
  }

  /** The host reading the four verdict bytes as "nonzero" recovers the verdict. */
  lemma VerdictRoundTrip(valid: bool)
    ensures (LEToU32(U32ToLE(VerdictWord(valid))) != 0) == valid
    ensures U32ToLE(VerdictWord(valid)) == if valid then [1, 0, 0, 0] else [0, 0, 0, 0]
  {
  }
}
