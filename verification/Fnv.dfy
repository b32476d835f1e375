/** The 64-bit FNV-1a fingerprint of a frame, over machine words. */
module Fnv {
  import opened Common

  const OFFSET_BASIS: u64 := 0xcbf2_9ce4_8422_2325
  const PRIME: u64 := 0x0000_0100_0000_01b3
  const MODULUS: int := 0x1_0000_0000_0000_0000
  const PREFIX_LENGTH: nat := 60

  function Pow2(bits: nat): (r: nat)
    ensures r >= 1
  {
    if bits == 0 then 1 else 2 * Pow2(bits - 1)
  }

  /** Bitwise exclusive or of the low `bits` bits. */
  function Xor(a: nat, b: nat, bits: nat): (r: nat)
    ensures r < Pow2(bits)
  {
    if bits == 0 then 0
    else 2 * Xor(a / 2, b / 2, bits - 1) + if a % 2 == b % 2 then 0 else 1
  }

  /** Exclusive or of a word with a byte: only the low eight bits can change. */
  function XorByte(hash: u64, byte: u8): u64 {
    assert Pow2(8) == 256;
    hash / 256 * 256 + Xor(hash % 256, byte, 8)
  }

  /** Multiplication by the FNV prime, wrapping modulo 2^64. */
  function TimesPrime(word: u64): u64 { word * PRIME % MODULUS }

  /** One FNV-1a step. */
  function Mix(hash: u64, byte: u8): u64 { TimesPrime(XorByte(hash, byte)) }

  /** The hash starts from the two big-endian bytes of the exact frame length. */
  function Init(frameLength: u16): u64 {
    Mix(Mix(OFFSET_BASIS, frameLength / 256), frameLength % 256)
  }

  function Absorb(hash: u64, bytes: seq<u8>): u64 {
    if bytes == [] then hash else Mix(Absorb(hash, bytes[..|bytes| - 1]), bytes[|bytes| - 1])
  }

  method HashWithLength(frameLength: u16, prefix: seq<u8>) returns (r: Option<u64>)
    ensures r == if |prefix| == Min(frameLength, PREFIX_LENGTH) then Some(Absorb(Init(frameLength), prefix)) else None
  {
    if |prefix| != Min(frameLength, PREFIX_LENGTH) {
      return None;
    }
    var hash := Init(frameLength);
    for i := 0 to |prefix|
      invariant hash == Absorb(Init(frameLength), prefix[..i])
    {
      assert prefix[..i + 1][..i] == prefix[..i];
      hash := Mix(hash, prefix[i]);
    }
    assert prefix[..|prefix|] == prefix;
    return Some(hash);
  }

  /** The fingerprint of a whole frame: none when its length does not fit sixteen bits. */
  function Fingerprint(frame: seq<u8>): Option<u64> {
    if |frame| > 0xFFFF then None
    else Some(Absorb(Init(|frame|), frame[..Min(|frame|, PREFIX_LENGTH)]))
  }

  method HashFrame(frame: seq<u8>) returns (r: Option<u64>)
    ensures r == Fingerprint(frame)
  {
    if |frame| > 0xFFFF {
      return None;
    }
    r := HashWithLength(|frame|, frame[..Min(|frame|, PREFIX_LENGTH)]);
  }

  /** The prime is odd, so it has an inverse modulo 2^64 and multiplying by it loses nothing. */
  lemma TimesPrimeIsInjective(x: u64, y: u64)
    requires TimesPrime(x) == TimesPrime(y)
    ensures x == y
  {
    var inverse := 0xce96_5057_aff6_957b;
    var k := (PRIME * inverse - 1) / MODULUS;
    assert PRIME * inverse == 1 + k * MODULUS;
    var p, q := x * PRIME / MODULUS, y * PRIME / MODULUS;
    assert x * PRIME - y * PRIME == (p - q) * MODULUS;
    assert (x - y) * (PRIME * inverse) == (p - q) * MODULUS * inverse;
    assert x - y == MODULUS * ((p - q) * inverse - (x - y) * k);
  }

  /** Applying the same bits twice gives back the original. */
  lemma {:induction false} XorIsInvolution(a: nat, b: nat, bits: nat)
    requires a < Pow2(bits)
    ensures Xor(Xor(a, b, bits), b, bits) == a
  {
    if bits > 0 {
      XorIsInvolution(a / 2, b / 2, bits - 1);
    }
  }

  lemma {:induction false} XorCommutes(a: nat, b: nat, bits: nat)
    ensures Xor(a, b, bits) == Xor(b, a, bits)
  {
    if bits > 0 {
      XorCommutes(a / 2, b / 2, bits - 1);
    }
  }

  /** A step never merges two hashes. */
  lemma MixKeepsHashes(a: u64, b: u64, x: u8)
    requires Mix(a, x) == Mix(b, x)
    ensures a == b
  {
    TimesPrimeIsInjective(XorByte(a, x), XorByte(b, x));
    XorByteSplits(a, x, b, x);
    assert Pow2(8) == 256;
    XorIsInvolution(a % 256, x, 8);
    XorIsInvolution(b % 256, x, 8);
  }

  lemma XorByteSplits(a: u64, x: u8, b: u64, y: u8)
    requires XorByte(a, x) == XorByte(b, y)
    ensures a / 256 == b / 256 && Xor(a % 256, x, 8) == Xor(b % 256, y, 8)
  {
    assert Pow2(8) == 256;
  }

  /** A step never merges two bytes. */
  lemma MixKeepsBytes(a: u64, x: u8, y: u8)
    requires Mix(a, x) == Mix(a, y)
    ensures x == y
  {
    TimesPrimeIsInjective(XorByte(a, x), XorByte(a, y));
    XorByteSplits(a, x, a, y);
    assert Pow2(8) == 256;
    XorCommutes(a % 256, x, 8);
    XorCommutes(a % 256, y, 8);
    XorIsInvolution(x, a % 256, 8);
    XorIsInvolution(y, a % 256, 8);
  }

  lemma {:induction false} AbsorbKeepsApart(a: u64, b: u64, bytes: seq<u8>)
    requires a != b
    ensures Absorb(a, bytes) != Absorb(b, bytes)
  {
    if bytes != [] {
      var front := bytes[..|bytes| - 1];
      AbsorbKeepsApart(a, b, front);
      if Absorb(a, bytes) == Absorb(b, bytes) {
        MixKeepsHashes(Absorb(a, front), Absorb(b, front), bytes[|bytes| - 1]);
        assert false;
      }
    }
  }

  lemma {:induction false} AbsorbSplits(hash: u64, s: seq<u8>, t: seq<u8>)
    ensures Absorb(hash, s + t) == Absorb(Absorb(hash, s), t)
  {
    if t == [] {
      assert s + t == s;
    } else {
      AbsorbSplits(hash, s, t[..|t| - 1]);
      assert (s + t)[..|s + t| - 1] == s + t[..|t| - 1];
    }
  }

  /** Two hashed prefixes that differ in exactly one byte never share a hash. */
  lemma OneByteChangesTheHash(hash: u64, s: seq<u8>, t: seq<u8>, i: nat)
    requires |s| == |t| && i < |s| && s[i] != t[i]
    requires forall k :: 0 <= k < |s| && k != i ==> s[k] == t[k]
    ensures Absorb(hash, s) != Absorb(hash, t)
  {
    var front, back := s[..i], s[i + 1..];
    assert t[..i] == front && t[i + 1..] == back;
    assert s == (front + [s[i]]) + back && t == (front + [t[i]]) + back;
    AbsorbSplits(hash, front + [s[i]], back);
    AbsorbSplits(hash, front + [t[i]], back);
    assert (front + [s[i]])[..i] == front && (front + [t[i]])[..i] == front;
    if Absorb(hash, front + [s[i]]) == Absorb(hash, front + [t[i]]) {
      MixKeepsBytes(Absorb(hash, front), s[i], t[i]);
      assert false;
    }
    AbsorbKeepsApart(Absorb(hash, front + [s[i]]), Absorb(hash, front + [t[i]]), back);
  }

  /** Same-length frames whose hashed prefixes differ in exactly one byte have different fingerprints. */
  lemma FingerprintsDiffer(f: seq<u8>, g: seq<u8>, i: nat)
    requires |f| == |g| <= 0xFFFF && i < Min(|f|, PREFIX_LENGTH) && f[i] != g[i]
    requires forall k :: 0 <= k < Min(|f|, PREFIX_LENGTH) && k != i ==> f[k] == g[k]
    ensures Fingerprint(f) != Fingerprint(g)
  {
    var n := Min(|f|, PREFIX_LENGTH);
    OneByteChangesTheHash(Init(|f|), f[..n], g[..n], i);
  }

  /** The fingerprint is the plain hash of two length bytes, high byte first, and at most sixty bytes of the frame. */
  lemma FingerprintIsPlainHash(f: seq<u8>)
    requires |f| < 65_536
    ensures var prefix := if |f| < 60 then f else f[..60];
            Fingerprint(f) == Some(Absorb(0xcbf2_9ce4_8422_2325, [|f| / 256, |f| % 256] + prefix))
  {
    var prefix := if |f| < 60 then f else f[..60];
    assert f[..Min(|f|, PREFIX_LENGTH)] == prefix;
    var length: seq<u8> := [|f| / 256, |f| % 256];
    AbsorbSplits(OFFSET_BASIS, length, prefix);
    assert length[..1] == [|f| / 256] && length[..1][..0] == [];
    assert Absorb(OFFSET_BASIS, length[..1]) == Mix(OFFSET_BASIS, |f| / 256);
  }

  /** Frames with the same hashed bytes whose lengths differ in one byte have different fingerprints. */
  lemma LengthsTellApart(f: seq<u8>, g: seq<u8>)
    requires 60 <= |f| < 65_536 && 60 <= |g| < 65_536 && f[..60] == g[..60]
    requires (|f| / 256 == |g| / 256) != (|f| % 256 == |g| % 256)
    ensures Fingerprint(f) != Fingerprint(g)
  {
    FingerprintIsPlainHash(f);
    FingerprintIsPlainHash(g);
    var s: seq<u8>, t: seq<u8> := [|f| / 256, |f| % 256] + f[..60], [|g| / 256, |g| % 256] + g[..60];
    assert (if |f| < 60 then f else f[..60]) == f[..60] && (if |g| < 60 then g else g[..60]) == g[..60];
    OneByteChangesTheHash(0xcbf2_9ce4_8422_2325, s, t, if s[0] != t[0] then 0 else 1);
  }
}
