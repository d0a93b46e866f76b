/** Results of contract calls. The source returns `Result<_, Vec<u8>>` whose
    error is a fixed message; each message is a constructor of `Error` here. */
module Outcomes {

  datatype Option<+T> = None | Some(value: T)

  datatype Result<+T> = Success(value: T) | Failure(error: Error) {
    predicate IsFailure() { Failure? }
    function PropagateFailure<U>(): Result<U>
      requires Failure?
    {
      Failure(error)
    }
    function Extract(): T
      requires Success?
    {
      value
    }
  }

  datatype Error =
    // PrecompileBackend
    | EcAddPrecompileFailed          // "ecAdd precompile failed"
    | InvalidEcAddResultLength       // "Invalid ecAdd result length"
    | EcMulPrecompileFailed          // "ecMul precompile failed"
    | InvalidEcMulResultLength       // "Invalid ecMul result length"
    // ZKProof / VerifyingKey parsers
    | InvalidProofLength             // "Invalid proof length"
    | InvalidVerifyingKeyLength      // "Invalid verifying key length"
    | InvalidGammaAbcLength          // "Invalid gamma ABC length"
    | InvalidGammaAbcPointsLength    // "Invalid gamma ABC points length"
    // groth16_verify
    | WrongNumberOfPublicInputs      // "Wrong number of public inputs"
    | PairingPrecompileFailed        // "Pairing precompile failed"
    // mint_with_zk_proof
    | InvalidNumberOfPublicInputs    // "Invalid number of public inputs"
    | MinRequiredBalanceMismatch     // "Invalid min_required_balance in proof - ..."
    | NullifierAlreadyUsed           // "Nullifier already used - proof replay detected"
    | ProofExpired                   // "Proof expired - timestamp too old"
    | TimestampFromFuture            // "Invalid timestamp - proof from future"
    | InvalidZkProof                 // "Invalid ZK proof"
    | CrossChainSendFailed           // the error of the cross-chain sendMessage call
    // views and admin
    | TokenDoesNotExist              // "Token does not exist"
    | NotOwner                       // "Only owner can set_min_required_balance"
}
