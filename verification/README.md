# ZK eligibility mint — Dafny model

This project models `ZKMintContract`, the Arbitrum Stylus contract in
`stylus-contracts/src/lib.rs`. The contract mints an ERC-721-style token to an
address once these checks pass, in this order (see the `ZkMint.MintRejections`
row):

- there are exactly six public inputs;
- the minimum balance in the proof (`public_inputs[1]`) equals the contract's
  `min_required_balance`;
- the proof's nullifier was never used before;
- the proof's timestamp is in the past and at most 300 seconds old;
- the Groth16 zero-knowledge proof verifies.

It checks the proof itself with the BN254 precompiles: ecAdd at 0x06, ecMul
at 0x07 and the pairing check at 0x08 (EIP-196 and EIP-197). On success it
sends a cross-chain (CCIP) message and records the token.

Modules, one per file:

- `Bytes` (`bytes.dfy`):
  - bytes as integers `0..255`;
  - the big-endian value of a byte string (`BeValue`) and the fixed-width
    encoder `BeBytes`, proved inverse to each other;
  - the all-zero test the backend uses for the point at infinity and for a
    zero scalar.
- `Outcomes` (`outcomes.dfy`):
  - `Option`;
  - a `Result` that supports `:-`;
  - one `Error` constructor per error message the contract returns.
- `Bn254` (`bn254.dfy`):
  - the `PrecompileBackend`: `ec_add` and `ec_mul` with their short-cuts for
    zero;
  - `negate_g1_point`, proved to compute `p - y` modulo `2^256`;
  - the base-field modulus `p` and its 32 big-endian bytes.
- `ProofCodec` (`codec.dfy`): `ZKProof::deserialize` and
  `VerifyingKey::deserialize`, each with its inverse encoder and round-trip
  lemmas.
- `Groth16` (`groth16.dfy`):
  - `groth16_verify`: the accumulation of `vk_x`, the 768-byte pairing
    calldata, and reading the precompile's answer;
  - `verify_proof`.
- `ZkMint` (`mint.dfy`):
  - the contract's storage as a `Storage` value, with its transitions as
    functions;
  - the storage invariant `Valid`, and lemmas about minting;
  - the class `ZkMintContract`, whose methods update its fields in place and
    are proved to perform exactly those transitions.

The environment becomes parameters:

- `host: Host` answers a precompile call, given an address and calldata,
  with `None` (call failed) or `Some(bytes)`.
- `now` is the block timestamp.
- `caller` is `msg_sender`.
- `ccipSent` says whether the cross-chain send succeeded.

## Model

| member | source | states |
|---|---|---|
| Bn254.EcAdd | stylus-contracts/src/lib.rs:46-71 | If either operand is the point at infinity, the result is the other operand and no error can occur. For two non-zero operands, a success is exactly the 64-byte answer of precompile 0x06 to `a ‖ b`. |
| Bn254.EcAddZeroIsIdentity | stylus-contracts/src/lib.rs:46-52 | A zero operand gives the other operand, whatever the host would answer. |
| Bn254.EcMul | stylus-contracts/src/lib.rs:74-96 | A zero scalar or the point at infinity cannot fail. For non-zero operands, a success is exactly the 64-byte answer of precompile 0x07 to `point ‖ scalar`. |
| Bn254.EcMulByZero | stylus-contracts/src/lib.rs:74-77 | A zero scalar or a zero point gives the all-zero point, whatever the host would answer. |
| Bn254.PBytesEncodeP | stylus-contracts/src/lib.rs:116-121 | The 32-byte table `p_bytes` is the big-endian encoding of the BN254 base-field modulus `p`. |
| Bn254.PBytesNonZero | stylus-contracts/src/lib.rs:118-121 | No byte of `p_bytes` is zero, so `p_bytes[i] - borrow` never goes below zero. |
| Bn254.NegateG1Point | stylus-contracts/src/lib.rs:110-143 | The byte-wise borrow loop returns exactly `Negate(point)` for every point. The point at infinity comes back unchanged. Otherwise x is kept and y becomes `(p - y) mod 2^256`. |
| Bn254.SubtractYFrom | stylus-contracts/src/lib.rs:124-140 | The loop keeps x. Its final borrow is 0 or 1, and `value(p_bytes) - y == value(new y) - borrow·2^256`. |
| Bn254.BorrowChainNegates | stylus-contracts/src/lib.rs:128-140 | Any byte string and borrow in that relation, appended to x, is `Negate(point)`: the bytes are the subtraction modulo `2^256`. |
| Bn254.NegateIsFieldNegation | stylus-contracts/src/lib.rs:109-143 | For a non-zero point with `y ≤ p`, negation keeps x, gives `y' = p - y`, and `y + y' ≡ 0 (mod p)`. |
| Bn254.NegateInvolutive | stylus-contracts/src/lib.rs:109-143 | Negating twice gives back every point whose y is below `p`. |
| Bytes.AllZeroIffValueZero | stylus-contracts/src/lib.rs:99-107 | The all-zero test holds exactly when the bytes, read big-endian, are the number 0. |
| ProofCodec.DeserializeProof | stylus-contracts/src/lib.rs:164-182 | It succeeds exactly when the input is 256 bytes long; otherwise it fails with the invalid-proof-length error. On success, A, B and C re-serialise to the input. |
| ProofCodec.ProofRoundTrip | stylus-contracts/src/lib.rs:164-182 | Decoding an encoded proof gives the proof back. |
| ProofCodec.DeserializeVerifyingKey | stylus-contracts/src/lib.rs:186-244 | The offset-advancing parser, including its loop over the points, returns exactly `ParseVerifyingKey`. That function rejects inputs shorter than 452 bytes, and inputs shorter than `452 + 64·n`, where `n` is the big-endian count at bytes 448..452. Otherwise it takes the four fixed points and `n` points of 64 bytes. The length check at 216-218 is proved unreachable. |
| ProofCodec.VerifyingKeyRoundTrip | stylus-contracts/src/lib.rs:186-244 | Parsing an encoded key, followed by any trailing bytes, gives the key back. |
| ProofCodec.VerifyingKeyParseIsPrefix | stylus-contracts/src/lib.rs:186-244 | A successful parse has exactly `n` points, and its encoding is a prefix of the input. |
| ProofCodec.FlattenAt | stylus-contracts/src/lib.rs:229-235 | In the concatenated point list, point `i` occupies bytes `64i .. 64i+64`. |
| Groth16.VkXOfZeroInputs | stylus-contracts/src/lib.rs:474-482 | With all public inputs zero, `vk_x` is `gamma_abc[0]` and no precompile result matters. |
| Groth16.VkXFailurePersists | stylus-contracts/src/lib.rs:477-482 | After the first precompile error, the accumulation result stays that error. |
| Groth16.AccumulateVkX | stylus-contracts/src/lib.rs:474-482 | The loop, including its `i + 1 < len` guard and early error returns, computes `gamma_abc[0] + Σ input[i]·gamma_abc[i+1]` through the host (`VkX`). |
| Groth16.PairingCalldataLayout | stylus-contracts/src/lib.rs:491-501 | The calldata is 768 bytes: A at 0..64, B at 64..192, −α at 192..256, β at 256..384, −vk_x at 384..448, γ at 448..576, −C at 576..640 and δ at 640..768. |
| Groth16.CopyInto | stylus-contracts/src/lib.rs:494-501 | `copy_from_slice` into the buffer: afterwards the buffer up to the copied range is the old prefix followed by the source bytes, and the bytes after the range are unchanged. |
| Groth16.FillPairingCalldata | stylus-contracts/src/lib.rs:491-501 | The filled buffer is the concatenation of the eight points in order. |
| Groth16.Groth16Verdict | stylus-contracts/src/lib.rs:461-511 | A success requires one more `gamma_abc` point than there are public inputs. The answer `true` means `vk_x` was computed and the pairing precompile answered a 32-byte word whose last byte is 1. |
| Groth16.Groth16Verify | stylus-contracts/src/lib.rs:461-511 | The method returns exactly `Groth16Verdict`. That covers the arity error, precompile errors, the negations, the buffer, the pairing-call failure and the EIP-197 result test. |
| Groth16.ScalarOf | stylus-contracts/src/lib.rs:303 | `to_be_bytes` gives 32 bytes whose big-endian value is the input. |
| Groth16.ScalarOfZero | stylus-contracts/src/lib.rs:303 | The encoded scalar is all zero exactly when the input is 0. |
| Groth16.Scalars | stylus-contracts/src/lib.rs:301-305 | There is one scalar per input, in order, each encoding its input. |
| Groth16.ProofVerdictRejectsBadLength | stylus-contracts/src/lib.rs:298 | A proof blob that is not 256 bytes fails with the invalid-proof-length error. |
| Groth16.VerifyProof | stylus-contracts/src/lib.rs:292-312 | The method returns exactly `ProofVerdict`: the decoding error, or the Groth16 verdict on the decoded proof and the encoded inputs. |
| ZkMint.Storage.OwnerOf | stylus-contracts/src/lib.rs:419-425 | It fails with the token-does-not-exist error exactly when the stored owner is the zero address. Otherwise it returns the stored owner. |
| ZkMint.Storage.Mint | stylus-contracts/src/lib.rs:321-408 | It succeeds exactly when every guard passes. A failure leaves the storage unchanged. A success returns the old `next_token_id`. |
| ZkMint.MintRejections | stylus-contracts/src/lib.rs:321-361 | The guards fire in order: input count ≠ 6, then `inputs[1] ≠ min_required_balance`, then nullifier used, then timestamp not in the past, then age > 300. Then a `verify_proof` error is passed through unchanged and a `false` verdict fails with the invalid-proof error, whether or not the send would succeed. Only a failed cross-chain send after all of these fails with the send error. Each fires with its own error. |
| ZkMint.MintTimeWindow | stylus-contracts/src/lib.rs:343-356 | Once the other guards pass, a mint succeeds exactly when `ts < now ≤ ts + 300`. A timestamp equal to `now` is rejected as from the future, and an age of exactly 300 is accepted. |
| ZkMint.MintEffects | stylus-contracts/src/lib.rs:397-408 | A successful mint adds the fresh nullifier to the used set. It records `to` as owner of the old next id and leaves every other owner unchanged. It adds exactly 1 to `to`'s balance and leaves every other balance unchanged. The next id goes up by 1, and owner and minimum are unchanged. |
| ZkMint.MintReplayRejected | stylus-contracts/src/lib.rs:338-398 | After a successful mint, a mint that presents the same nullifier and minimum fails as a replay, whatever its proof or clock. |
| ZkMint.InitValid | stylus-contracts/src/lib.rs:279-285 | The constructor's storage satisfies the invariant, has next id 1, and reports every token as nonexistent. |
| ZkMint.MintPreservesValid | stylus-contracts/src/lib.rs:397-408 | Minting keeps the invariant: minted ids are exactly `1 .. next-1`, each balance is the number of tokens recorded for that address, and one nullifier is used per minted token. |
| ZkMint.SetMinRequiredBalancePreservesValid | stylus-contracts/src/lib.rs:443-452 | Changing the minimum keeps the invariant. |
| ZkMint.OwnerOfOnlyMinted | stylus-contracts/src/lib.rs:419-425 | In a valid storage, only ids in `1 .. next-1` have an owner. |
| ZkMint.OwnerOfAfterMint | stylus-contracts/src/lib.rs:400-425 | After minting to a non-zero address, `owner_of` of the new id returns that address. After minting to the zero address, the token is reported nonexistent while the zero address's balance still grows. |
| ZkMint.MintRequiresAcceptedPairing | stylus-contracts/src/lib.rs:358-361 | A successful mint needs a 256-byte proof, a key with 7 `gamma_abc` points, and the pairing precompile answering a 32-byte word ending in 1. |
| ZkMint.Storage.SetMinRequiredBalance | stylus-contracts/src/lib.rs:443-452 | It succeeds exactly when the caller is the owner. Otherwise it fails with the not-owner error and changes nothing. On success only the minimum changes. |
| ZkMint.ZkMintContract.constructor | stylus-contracts/src/lib.rs:279-285 | The new contract's storage is `Init(owner, min)`, with next token id 1. |
| ZkMint.ZkMintContract.MintWithZkProof | stylus-contracts/src/lib.rs:314-409 | The in-place method leaves the storage and returns the result that `Storage.Mint` gives on the old storage, using the verdict of `verify_proof` with the contract's key. |
| ZkMint.ZkMintContract.RecordMint | stylus-contracts/src/lib.rs:397-406 | The storage writes set the nullifier as used, record the owner of the next id, add 1 to the balance and advance the id. |
| ZkMint.ZkMintContract.BalanceOf | stylus-contracts/src/lib.rs:415-417 | It reads the balance of the current storage, zero when never written. |
| ZkMint.ZkMintContract.OwnerOf | stylus-contracts/src/lib.rs:419-425 | It answers as `Storage.OwnerOf` on the current storage. |
| ZkMint.ZkMintContract.SetMinRequiredBalance | stylus-contracts/src/lib.rs:443-452 | The in-place method performs exactly `Storage.SetMinRequiredBalance`. |

## Left out

- Precompile internals (curve addition, scalar multiplication, the pairing) are not modelled. The precompiles and `RawCall` are the `host` parameter. A `Host` answers deterministically, so a call whose result is ignored is the same as no call.
- The CCIP `sendMessage` call, its hard-coded addresses and chain selector, the `format!` message text and the `transmute` of the call config are not modelled. They become the boolean `ccipSent`, and a failed send is the single error `CrossChainSendFailed`. In the source the send (`stylus-contracts/src/lib.rs:389-395`) happens before the nullifier is marked used (`stylus-contracts/src/lib.rs:398`), but the model treats the send as one atomic step. `MintReplayRejected` and `MintPreservesValid` therefore assume the send cannot call back into `mint_with_zk_proof`. This holds under Stylus's default, where reentrancy is off unless the `reentrant` feature is enabled.
- `get_verifying_key` and the `verifying_key` module are not part of this model. The key is a constructor parameter held in the constant field `verifyingKey`.
- ZkMint.Storage.Mint: token ids, balances and `next_token_id` are unbounded integers, so the `U256` wrap-around of `current_balance + 1` and `token_id + 1` is not modelled. It would take 2^256 mints.
- ProofCodec.DeserializeVerifyingKey: `gamma_abc_len * 64` is computed exactly. The `usize` overflow the source could hit on a 32-bit target is not modelled.
- `token_approvals` and `operator_approvals` are declared in storage but never read or written, so they are not part of `Storage`.
- The getters `get_next_token_id`, `get_max_proof_age`, `get_min_required_balance` and `get_owner` are not modelled. Each returns one field or `MAX_PROOF_AGE`, and the model reads those directly.
- Error payloads are `Error` constructors, not the byte strings of the messages. The error an external call would return is also reduced to one constructor.
- The fixed-size Rust arrays `negated` and `y_bytes` in `negate_g1_point` are Dafny sequences updated one byte at a time. The calldata buffer in `groth16_verify` is a Dafny `array`.
