/** Groth16 verification as the contract performs it (`verify_proof`,
    `groth16_verify`): the public-input arity check, the linear combination
    vk_x of the gamma_abc points, the 768-byte calldata of the four-pair
    pairing check e(A, B) e(-alpha, beta) e(-vk_x, gamma) e(-C, delta) = 1, and
    the reading of the precompile's answer as in EIP-197. The precompiles are
    the `Host` parameter; curve arithmetic is not modelled. */
module Groth16 {
  import opened Bytes
  import opened Outcomes
  import opened Bn254
  import opened ProofCodec

  /** Size of the pairing calldata: four (G1, G2) pairs of 192 bytes. */
  const PAIRING_CALLDATA_LENGTH: nat := 768

  /** vk_x after folding in the first k public inputs:
      gamma_abc[0] + sum of input[j] * gamma_abc[j + 1] for j < k, stopping at
      the first precompile error. */
  function VkX(host: Host, gammaAbc: seq<G1Point>, inputs: seq<Scalar>, k: nat): Result<G1Point>
    requires k <= |inputs| < |gammaAbc|
    decreases k
  {
    if k == 0 then Success(gammaAbc[0])
    else
      var acc :- VkX(host, gammaAbc, inputs, k - 1);
      var term :- EcMul(host, inputs[k - 1], gammaAbc[k]);
      EcAdd(host, acc, term)
  }

  /** With every public input zero, vk_x is gamma_abc[0] and no precompile
      is consulted. */
  lemma {:induction false} VkXOfZeroInputs(host: Host, gammaAbc: seq<G1Point>, inputs: seq<Scalar>, k: nat)
    requires k <= |inputs| < |gammaAbc|
    requires forall j :: 0 <= j < |inputs| ==> AllZero(inputs[j])
    ensures VkX(host, gammaAbc, inputs, k) == Success(gammaAbc[0])
  {
    if k > 0 {
      VkXOfZeroInputs(host, gammaAbc, inputs, k - 1);
      EcMulByZero(host, inputs[k - 1], gammaAbc[k]);
      ZeroG1IsAtInfinity();
      EcAddZeroIsIdentity(host, gammaAbc[0], ZERO_G1);
    }
  }

  /** Once a precompile call has failed, vk_x stays that failure: later inputs
      are not folded in. */
  lemma {:induction false} VkXFailurePersists(host: Host, gammaAbc: seq<G1Point>, inputs: seq<Scalar>, k: nat, m: nat)
    requires k <= m <= |inputs| < |gammaAbc|
    requires VkX(host, gammaAbc, inputs, k).Failure?
    ensures VkX(host, gammaAbc, inputs, m) == VkX(host, gammaAbc, inputs, k)
  {
    if k < m {
      VkXFailurePersists(host, gammaAbc, inputs, k, m - 1);
    }
  }

  /** The pairing input A || B || -alpha || beta || -vk_x || gamma || -C || delta. */
  function PairingCalldata(proof: ZkProof, vk: VerifyingKey, vkX: G1Point): seq<Byte>
  {
    proof.a + proof.b + Negate(vk.alphaG1) + vk.betaG2 + Negate(vkX) + vk.gammaG2 + Negate(proof.c) + vk.deltaG2
  }

  /** The offsets at which `groth16_verify` places each point. */
  lemma PairingCalldataLayout(proof: ZkProof, vk: VerifyingKey, vkX: G1Point)
    ensures var cd := PairingCalldata(proof, vk, vkX);
      |cd| == PAIRING_CALLDATA_LENGTH &&
      cd[0..64] == proof.a && cd[64..192] == proof.b &&
      cd[192..256] == Negate(vk.alphaG1) && cd[256..384] == vk.betaG2 &&
      cd[384..448] == Negate(vkX) && cd[448..576] == vk.gammaG2 &&
      cd[576..640] == Negate(proof.c) && cd[640..768] == vk.deltaG2
  {
    var cd := PairingCalldata(proof, vk, vkX);
    var p1 := proof.a + proof.b;
    var p2 := p1 + Negate(vk.alphaG1) + vk.betaG2;
    var p3 := p2 + Negate(vkX) + vk.gammaG2;
    assert cd == p3 + Negate(proof.c) + vk.deltaG2;
    assert cd[..576] == p3;
    assert p3[..384] == p2;
    assert p2[..192] == p1;
  }

  /** The EIP-197 success answer: a 32-byte word ending in 1. */
  predicate PairingHolds(result: seq<Byte>)
  {
    |result| == 32 && result[31] == 1
  }

  /** What `groth16_verify` returns. */
  function Groth16Verdict(host: Host, proof: ZkProof, vk: VerifyingKey, inputs: seq<Scalar>): (r: Result<bool>)
    ensures r.Success? ==> |inputs| + 1 == |vk.gammaAbcG1|
    ensures r == Success(true) ==>
      && |inputs| + 1 == |vk.gammaAbcG1|
      && VkX(host, vk.gammaAbcG1, inputs, |inputs|).Success?
      && var cd := PairingCalldata(proof, vk, VkX(host, vk.gammaAbcG1, inputs, |inputs|).value);
         host(EC_PAIRING_PRECOMPILE, cd).Some? && PairingHolds(host(EC_PAIRING_PRECOMPILE, cd).value)
  {
    if |inputs| + 1 != |vk.gammaAbcG1| then Failure(WrongNumberOfPublicInputs)
    else
      var vkX :- VkX(host, vk.gammaAbcG1, inputs, |inputs|);
      match host(EC_PAIRING_PRECOMPILE, PairingCalldata(proof, vk, vkX))
      case None => Failure(PairingPrecompileFailed)
      case Some(result) => Success(PairingHolds(result))
  }

  /** `copy_from_slice` into a prefix-filled buffer: after the copy the buffer
      starts with what it started with, followed by src. */
  method CopyInto(buf: array<Byte>, offset: nat, src: seq<Byte>)
    requires offset + |src| <= buf.Length
    modifies buf
    ensures buf[..offset + |src|] == old(buf[..offset]) + src
    ensures buf[offset + |src|..] == old(buf[offset + |src|..])
  {
    forall k | offset <= k < offset + |src| {
      buf[k] := src[k - offset];
    }
  }

  /** The accumulation loop of `groth16_verify`: vk_x starts at gamma_abc[0]
      and each input i adds input[i] * gamma_abc[i + 1]; the first precompile
      error is returned. */
  method AccumulateVkX(host: Host, gammaAbc: seq<G1Point>, inputs: seq<Scalar>) returns (r: Result<G1Point>)
    requires |inputs| + 1 == |gammaAbc|
    ensures r == VkX(host, gammaAbc, inputs, |inputs|)
  {
    var vkX := gammaAbc[0];
    var i := 0;
    while i < |inputs|
      invariant 0 <= i <= |inputs|
      invariant VkX(host, gammaAbc, inputs, i) == Success(vkX)
    {
      if i + 1 < |gammaAbc| {
        var term := EcMul(host, inputs[i], gammaAbc[i + 1]);
        if term.Failure? {
          VkXFailurePersists(host, gammaAbc, inputs, i + 1, |inputs|);
          return Failure(term.error);
        }
        var sum := EcAdd(host, vkX, term.value);
        if sum.Failure? {
          VkXFailurePersists(host, gammaAbc, inputs, i + 1, |inputs|);
          return Failure(sum.error);
        }
        vkX := sum.value;
      }
      i := i + 1;
    }
    return Success(vkX);
  }

  /** Fills the 768-byte pairing buffer, one `copy_from_slice` per point. */
  method FillPairingCalldata(a: G1Point, b: G2Point, negAlpha: G1Point, beta: G2Point,
                             negVkX: G1Point, gamma: G2Point, negC: G1Point, delta: G2Point)
    returns (calldata: seq<Byte>)
    ensures calldata == a + b + negAlpha + beta + negVkX + gamma + negC + delta
  {
    var buf := new Byte[PAIRING_CALLDATA_LENGTH];
    CopyInto(buf, 0, a);
    CopyInto(buf, 64, b);
    CopyInto(buf, 192, negAlpha);
    CopyInto(buf, 256, beta);
    CopyInto(buf, 384, negVkX);
    CopyInto(buf, 448, gamma);
    CopyInto(buf, 576, negC);
    CopyInto(buf, 640, delta);
    assert buf[..] == buf[..768];
    calldata := buf[..];
  }

  /** `groth16_verify`: checks the arity, accumulates vk_x, negates alpha,
      vk_x and C, fills the calldata and reads the pairing precompile's answer. */
  method Groth16Verify(host: Host, proof: ZkProof, vk: VerifyingKey, inputs: seq<Scalar>) returns (r: Result<bool>)
    ensures r == Groth16Verdict(host, proof, vk, inputs)
  {
    if |inputs| + 1 != |vk.gammaAbcG1| {
      return Failure(WrongNumberOfPublicInputs);
    }
    var vkX :- AccumulateVkX(host, vk.gammaAbcG1, inputs);
    var negAlpha := NegateG1Point(vk.alphaG1);
    var negVkX := NegateG1Point(vkX);
    var negC := NegateG1Point(proof.c);
    var calldata := FillPairingCalldata(proof.a, proof.b, negAlpha, vk.betaG2, negVkX, vk.gammaG2, negC, vk.deltaG2);
    var result := host(EC_PAIRING_PRECOMPILE, calldata);
    if result.None? {
      return Failure(PairingPrecompileFailed);
    }
    return Success(|result.value| == 32 && result.value[31] == 1);
  }

  /** A public input as the 32-byte big-endian scalar the precompile takes
      (`U256::to_be_bytes`). */
  function ScalarOf(x: U256): (r: Scalar)
    ensures BeValue(r) == x
  {
    Pow256Of32();
    BeBytesValue(x, 32);
    BeBytes(x, 32)
  }

  /** A scalar is zero, so that `ec_mul` short-cuts, exactly when its input is 0. */
  lemma ScalarOfZero(x: U256)
    ensures AllZero(ScalarOf(x)) <==> x == 0
  {
    AllZeroIffValueZero(ScalarOf(x));
  }

  /** The public inputs as scalars, in order. */
  function Scalars(inputs: seq<U256>): (r: seq<Scalar>)
    ensures |r| == |inputs|
    ensures forall j :: 0 <= j < |inputs| ==> BeValue(r[j]) == inputs[j]
  {
    seq(|inputs|, j requires 0 <= j < |inputs| => ScalarOf(inputs[j]))
  }

  /** What `verify_proof` returns: the proof decoding error, or the Groth16
      verdict on the decoded proof and the encoded inputs. */
  function ProofVerdict(host: Host, vk: VerifyingKey, proofData: seq<Byte>, inputs: seq<U256>): Result<bool>
  {
    var proof :- DeserializeProof(proofData);
    Groth16Verdict(host, proof, vk, Scalars(inputs))
  }

  /** A proof blob of the wrong size is rejected before any precompile call. */
  lemma ProofVerdictRejectsBadLength(host: Host, vk: VerifyingKey, proofData: seq<Byte>, inputs: seq<U256>)
    requires |proofData| != PROOF_LENGTH
    ensures ProofVerdict(host, vk, proofData, inputs) == Failure(InvalidProofLength)
  {
  }

  /** `verify_proof`: decodes the proof, converts each input to its big-endian
      bytes, and runs `groth16_verify`. */
  method VerifyProof(host: Host, vk: VerifyingKey, proofData: seq<Byte>, inputs: seq<U256>) returns (r: Result<bool>)
    ensures r == ProofVerdict(host, vk, proofData, inputs)
  {
    var proof :- DeserializeProof(proofData);
    var scalarInputs: seq<Scalar> := [];
    for i := 0 to |inputs|
      invariant |scalarInputs| == i
      invariant forall j :: 0 <= j < i ==> scalarInputs[j] == ScalarOf(inputs[j])
    {
      scalarInputs := scalarInputs + [ScalarOf(inputs[i])];
    }
    assert scalarInputs == Scalars(inputs);
    r := Groth16Verify(host, proof, vk, scalarInputs);
  }
}
