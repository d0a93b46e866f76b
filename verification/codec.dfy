/** Byte layouts of a Groth16 proof and verifying key (`ZKProof::deserialize`,
    `VerifyingKey::deserialize`). Both are fixed-offset slicings of a byte
    string into EIP-196 G1 points (64 bytes) and EIP-197 G2 points (128 bytes). */
module ProofCodec {
  import opened Bytes
  import opened Outcomes
  import opened Bn254

  datatype ZkProof = ZkProof(a: G1Point, b: G2Point, c: G1Point)

  datatype VerifyingKey = VerifyingKey(
    alphaG1: G1Point,
    betaG2: G2Point,
    gammaG2: G2Point,
    deltaG2: G2Point,
    gammaAbcG1: seq<G1Point>)

  /** The encoded size of a proof: A (64) + B (128) + C (64). */
  const PROOF_LENGTH: nat := 256

  /** The fixed part of an encoded key: alpha (64) + beta, gamma, delta
      (3 * 128) + the big-endian u32 point count (4). */
  const VK_HEADER_LENGTH: nat := 452

  /** The proof layout A || B || C. */
  function SerializeProof(p: ZkProof): (r: seq<Byte>)
    ensures |r| == PROOF_LENGTH
  {
    p.a + p.b + p.c
  }

  /** `ZKProof::deserialize`: exactly 256 bytes are accepted and split at
      offsets 64 and 192; the accepted input is the layout of the result. */
  function DeserializeProof(data: seq<Byte>): (r: Result<ZkProof>)
    ensures r.Success? <==> |data| == PROOF_LENGTH
    ensures r.Failure? ==> r.error == InvalidProofLength
    ensures r.Success? ==> SerializeProof(r.value) == data
  {
    if |data| != PROOF_LENGTH then Failure(InvalidProofLength)
    else
      var r := Success(ZkProof(data[0..64], data[64..192], data[192..256]));
      assert data == data[0..64] + data[64..192] + data[192..256];
      r
  }

  /** Decoding an encoded proof gives the proof back. */
  lemma ProofRoundTrip(p: ZkProof)
    ensures DeserializeProof(SerializeProof(p)) == Success(p)
  {
    var s := SerializeProof(p);
    assert s[0..64] == p.a;
    assert s[64..192] == p.b;
    assert s[192..256] == p.c;
  }

  /** The gamma_abc points of an encoded key: n consecutive 64-byte slices
      starting right after the header. */
  function GammaAbcPoints(data: seq<Byte>, n: nat): (r: seq<G1Point>)
    requires VK_HEADER_LENGTH + 64 * n <= |data|
  {
    seq(n, i requires 0 <= i < n => data[VK_HEADER_LENGTH + 64 * i .. VK_HEADER_LENGTH + 64 * i + 64])
  }

  /** What `VerifyingKey::deserialize` returns for the given bytes. */
  function ParseVerifyingKey(data: seq<Byte>): Result<VerifyingKey>
  {
    if |data| < VK_HEADER_LENGTH then Failure(InvalidVerifyingKeyLength)
    else
      var n := BeValue(data[448..452]);
      if |data| < VK_HEADER_LENGTH + n * 64 then Failure(InvalidGammaAbcPointsLength)
      else Success(VerifyingKey(data[0..64], data[64..192], data[192..320], data[320..448],
                                GammaAbcPoints(data, n)))
  }

  /** `VerifyingKey::deserialize`: reads the four fixed points while advancing
      an offset, then the big-endian point count, then that many G1 points
      one by one. */
  method DeserializeVerifyingKey(data: seq<Byte>) returns (r: Result<VerifyingKey>)
    ensures r == ParseVerifyingKey(data)
  {
    if |data| < VK_HEADER_LENGTH {
      return Failure(InvalidVerifyingKeyLength);
    }
    var offset := 0;
    var alphaG1 := data[offset..offset + 64];
    offset := offset + 64;
    var betaG2 := data[offset..offset + 128];
    offset := offset + 128;
    var gammaG2 := data[offset..offset + 128];
    offset := offset + 128;
    var deltaG2 := data[offset..offset + 128];
    offset := offset + 128;
    if |data| < offset + 4 {
      // unreachable: the first check already guarantees 448 + 4 bytes
      assert false;
      return Failure(InvalidGammaAbcLength);
    }
    var gammaAbcLen := BeValue(data[offset..offset + 4]);
    offset := offset + 4;
    if |data| < offset + gammaAbcLen * 64 {
      return Failure(InvalidGammaAbcPointsLength);
    }
    var gammaAbcG1: seq<G1Point> := [];
    var k := 0;
    while k < gammaAbcLen
      invariant 0 <= k <= gammaAbcLen
      invariant offset == VK_HEADER_LENGTH + 64 * k
      invariant gammaAbcG1 == GammaAbcPoints(data, gammaAbcLen)[..k]
    {
      var point := data[offset..offset + 64];
      gammaAbcG1 := gammaAbcG1 + [point];
      offset := offset + 64;
      k := k + 1;
    }
    assert GammaAbcPoints(data, gammaAbcLen)[..k] == GammaAbcPoints(data, gammaAbcLen);
    return Success(VerifyingKey(alphaG1, betaG2, gammaG2, deltaG2, gammaAbcG1));
  }

  /** The concatenation of a list of G1 points. */
  function Flatten(points: seq<G1Point>): (r: seq<Byte>)
    ensures |r| == 64 * |points|
  {
    if points == [] then [] else Flatten(points[..|points| - 1]) + points[|points| - 1]
  }

  /** Point i of a flattened list sits at bytes 64i .. 64i + 64. */
  lemma {:induction false} FlattenAt(points: seq<G1Point>, i: nat)
    requires i < |points|
    ensures Flatten(points)[64 * i .. 64 * i + 64] == points[i]
  {
    var init := points[..|points| - 1];
    if i < |points| - 1 {
      FlattenAt(init, i);
      assert Flatten(points)[64 * i .. 64 * i + 64] == Flatten(init)[64 * i .. 64 * i + 64];
    }
  }

  /** The key layout: the four fixed points, the point count as a big-endian
      u32, then the points. */
  function SerializeVerifyingKey(vk: VerifyingKey): (r: seq<Byte>)
    requires |vk.gammaAbcG1| < Pow256(4)
    ensures |r| == VK_HEADER_LENGTH + 64 * |vk.gammaAbcG1|
  {
    vk.alphaG1 + vk.betaG2 + vk.gammaG2 + vk.deltaG2 + BeBytes(|vk.gammaAbcG1|, 4) + Flatten(vk.gammaAbcG1)
  }

  /** Decoding an encoded key gives the key back, whatever bytes follow it. */
  lemma VerifyingKeyRoundTrip(vk: VerifyingKey, trailing: seq<Byte>)
    requires |vk.gammaAbcG1| < Pow256(4)
    ensures ParseVerifyingKey(SerializeVerifyingKey(vk) + trailing) == Success(vk)
  {
    var n := |vk.gammaAbcG1|;
    var s := SerializeVerifyingKey(vk);
    var data := s + trailing;
    assert data[0..64] == vk.alphaG1;
    assert data[64..192] == vk.betaG2;
    assert data[192..320] == vk.gammaG2;
    assert data[320..448] == vk.deltaG2;
    assert data[448..452] == BeBytes(n, 4);
    BeBytesValue(n, 4);
    var flat := Flatten(vk.gammaAbcG1);
    assert data[VK_HEADER_LENGTH..VK_HEADER_LENGTH + 64 * n] == flat;
    forall i | 0 <= i < n
      ensures GammaAbcPoints(data, n)[i] == vk.gammaAbcG1[i]
    {
      FlattenAt(vk.gammaAbcG1, i);
      assert data[VK_HEADER_LENGTH + 64 * i .. VK_HEADER_LENGTH + 64 * i + 64]
          == data[VK_HEADER_LENGTH..VK_HEADER_LENGTH + 64 * n][64 * i .. 64 * i + 64];
    }
    assert GammaAbcPoints(data, n) == vk.gammaAbcG1;
  }

  /** Conversely, an accepted input starts with the encoding of the key it
      decodes to; whatever follows is ignored. */
  lemma VerifyingKeyParseIsPrefix(data: seq<Byte>)
    requires ParseVerifyingKey(data).Success?
    ensures var vk := ParseVerifyingKey(data).value;
      |vk.gammaAbcG1| == BeValue(data[448..452]) &&
      |vk.gammaAbcG1| < Pow256(4) &&
      SerializeVerifyingKey(vk) == data[..VK_HEADER_LENGTH + 64 * |vk.gammaAbcG1|]
  {
    var vk := ParseVerifyingKey(data).value;
    var n := BeValue(data[448..452]);
    BeValueBound(data[448..452]);
    BeBytesOfValue(data[448..452]);
    var flat := Flatten(vk.gammaAbcG1);
    var tail := data[VK_HEADER_LENGTH..VK_HEADER_LENGTH + 64 * n];
    assert flat == tail by {
      forall j | 0 <= j < 64 * n ensures flat[j] == tail[j] {
        var i := j / 64;
        FlattenAt(vk.gammaAbcG1, i);
        assert flat[j] == flat[64 * i .. 64 * i + 64][j - 64 * i];
      }
    }
    assert data[..VK_HEADER_LENGTH + 64 * n] == data[0..64] + data[64..192] + data[192..320] + data[320..448] + data[448..452] + tail;
  }
}
