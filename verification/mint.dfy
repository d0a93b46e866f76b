/** The `ZKMintContract` storage and entry points: minting a token against a
    zero-knowledge proof of eligibility, the ERC-721 views, and the owner-only
    update of the minimum balance. `Storage` is the contract's state as a
    value with the transitions as functions on it; `ZkMintContract` is the
    contract object whose methods update its fields in place and are proved
    to perform exactly those transitions. */
module ZkMint {
  import opened Bytes
  import opened Outcomes
  import opened Bn254
  import opened ProofCodec
  import opened Groth16

  const TWO_160: int := 0x10000000000000000000000000000000000000000

  /** A 20-byte account address as an integer. */
  type Address = x: int | 0 <= x < TWO_160

  const ZERO_ADDRESS: Address := 0

  /** Oldest accepted proof, in seconds. */
  const MAX_PROOF_AGE: nat := 300

  /** nullifier, min_required_balance, token_contract_hash, user_address_hash,
      timestamp, oracle_commitment. */
  const PUBLIC_INPUT_COUNT: nat := 6
  const NULLIFIER_INDEX: nat := 0
  const MIN_BALANCE_INDEX: nat := 1
  const TIMESTAMP_INDEX: nat := 4

  /** The contract's storage. An absent map key reads as zero, as Solidity
      storage mappings do. */
  datatype Storage = Storage(
    owner: Address,
    nextTokenId: nat,
    tokenOwners: map<nat, Address>,
    tokenBalances: map<Address, nat>,
    usedNullifiers: set<U256>,
    minRequiredBalance: U256)
  {
    /** `balance_of`: the stored count, zero when never written. */
    function BalanceOf(a: Address): nat
    {
      if a in tokenBalances then tokenBalances[a] else 0
    }

    /** The stored owner of a token, the zero address when never written. */
    function StoredOwner(id: nat): Address
    {
      if id in tokenOwners then tokenOwners[id] else ZERO_ADDRESS
    }

    /** `owner_of`: the owner, or an error when the stored owner is zero. */
    function OwnerOf(id: nat): (r: Result<Address>)
      ensures r.Success? <==> StoredOwner(id) != ZERO_ADDRESS
      ensures r.Success? ==> r.value == StoredOwner(id)
      ensures r.Failure? ==> r.error == TokenDoesNotExist
    {
      var owner := StoredOwner(id);
      if owner == ZERO_ADDRESS then Failure(TokenDoesNotExist) else Success(owner)
    }

    /** The ids recorded as owned by a. */
    ghost function TokensOwnedBy(a: Address): set<nat>
    {
      set id | id in tokenOwners && tokenOwners[id] == a
    }

    /** The storage invariant the contract keeps: ids 1 .. nextTokenId - 1
        have been minted and no other, each balance counts the tokens
        recorded for that address, and every minted token consumed one
        distinct nullifier. */
    ghost predicate Valid()
    {
      && nextTokenId >= 1
      && (forall id :: id in tokenOwners <==> 1 <= id < nextTokenId)
      && (forall a: Address :: BalanceOf(a) == |TokensOwnedBy(a)|)
      && |usedNullifiers| == nextTokenId - 1
    }

    /** Whether `mint_with_zk_proof` accepts: the guards of the source in
        their order, all passing. */
    predicate MintAccepted(inputs: seq<U256>, now: nat, verdict: Result<bool>, ccipSent: bool)
    {
      && |inputs| == PUBLIC_INPUT_COUNT
      && inputs[MIN_BALANCE_INDEX] == minRequiredBalance
      && inputs[NULLIFIER_INDEX] !in usedNullifiers
      && now > inputs[TIMESTAMP_INDEX]
      && now - inputs[TIMESTAMP_INDEX] <= MAX_PROOF_AGE
      && verdict == Success(true)
      && ccipSent
    }

    /** `mint_with_zk_proof` as a transition: the new storage and the result.
        `verdict` is what `verify_proof` answers and `ccipSent` whether the
        cross-chain message was sent. */
    function Mint(to: Address, inputs: seq<U256>, now: nat, verdict: Result<bool>, ccipSent: bool): (r: (Storage, Result<nat>))
      ensures r.1.Success? <==> MintAccepted(inputs, now, verdict, ccipSent)
      ensures r.1.Failure? ==> r.0 == this
      ensures r.1.Success? ==> r.1.value == nextTokenId
    {
      if |inputs| != PUBLIC_INPUT_COUNT then (this, Failure(InvalidNumberOfPublicInputs))
      else
        var nullifier, minBalanceFromProof, proofTimestamp :=
          inputs[NULLIFIER_INDEX], inputs[MIN_BALANCE_INDEX], inputs[TIMESTAMP_INDEX];
        if minBalanceFromProof != minRequiredBalance then (this, Failure(MinRequiredBalanceMismatch))
        else if nullifier in usedNullifiers then (this, Failure(NullifierAlreadyUsed))
        else if !(now > proofTimestamp) then (this, Failure(TimestampFromFuture))
        else if now - proofTimestamp > MAX_PROOF_AGE then (this, Failure(ProofExpired))
        else if verdict.Failure? then (this, Failure(verdict.error))
        else if !verdict.value then (this, Failure(InvalidZkProof))
        else if !ccipSent then (this, Failure(CrossChainSendFailed))
        else
          var tokenId := nextTokenId;
          (this.(usedNullifiers := usedNullifiers + {nullifier},
                 tokenOwners := tokenOwners[tokenId := to],
                 tokenBalances := tokenBalances[to := BalanceOf(to) + 1],
                 nextTokenId := tokenId + 1),
           Success(tokenId))
    }

    /** `set_min_required_balance` as a transition. */
    function SetMinRequiredBalance(caller: Address, newMin: U256): (r: (Storage, Result<()>))
      ensures r.1.Success? <==> caller == owner
      ensures r.1.Failure? ==> r.0 == this && r.1.error == NotOwner
      ensures r.1.Success? ==> r.0 == this.(minRequiredBalance := newMin)
    {
      if caller != owner then (this, Failure(NotOwner))
      else (this.(minRequiredBalance := newMin), Success(()))
    }
  }

  /** The storage the constructor leaves. */
  function Init(owner: Address, minRequiredBalance: U256): Storage
  {
    Storage(owner, 1, map[], map[], {}, minRequiredBalance)
  }

  lemma InitValid(owner: Address, minRequiredBalance: U256)
    ensures Init(owner, minRequiredBalance).Valid()
    ensures Init(owner, minRequiredBalance).nextTokenId == 1
    ensures forall id: nat :: Init(owner, minRequiredBalance).OwnerOf(id) == Failure(TokenDoesNotExist)
  {
    var s := Init(owner, minRequiredBalance);
    forall a: Address ensures s.BalanceOf(a) == |s.TokensOwnedBy(a)| {
      assert s.TokensOwnedBy(a) == {};
    }
  }

  /** Each guard, in the source's order, and the error it reports. */
  lemma MintRejections(s: Storage, to: Address, inputs: seq<U256>, now: nat, verdict: Result<bool>, ccipSent: bool)
    ensures |inputs| != PUBLIC_INPUT_COUNT ==>
      s.Mint(to, inputs, now, verdict, ccipSent).1 == Failure(InvalidNumberOfPublicInputs)
    ensures |inputs| == PUBLIC_INPUT_COUNT && inputs[MIN_BALANCE_INDEX] != s.minRequiredBalance ==>
      s.Mint(to, inputs, now, verdict, ccipSent).1 == Failure(MinRequiredBalanceMismatch)
    ensures (|inputs| == PUBLIC_INPUT_COUNT && inputs[MIN_BALANCE_INDEX] == s.minRequiredBalance
             && inputs[NULLIFIER_INDEX] in s.usedNullifiers) ==>
      s.Mint(to, inputs, now, verdict, ccipSent).1 == Failure(NullifierAlreadyUsed)
    ensures (|inputs| == PUBLIC_INPUT_COUNT && inputs[MIN_BALANCE_INDEX] == s.minRequiredBalance
             && inputs[NULLIFIER_INDEX] !in s.usedNullifiers && now <= inputs[TIMESTAMP_INDEX]) ==>
      s.Mint(to, inputs, now, verdict, ccipSent).1 == Failure(TimestampFromFuture)
    ensures (|inputs| == PUBLIC_INPUT_COUNT && inputs[MIN_BALANCE_INDEX] == s.minRequiredBalance
             && inputs[NULLIFIER_INDEX] !in s.usedNullifiers && now > inputs[TIMESTAMP_INDEX] + MAX_PROOF_AGE) ==>
      s.Mint(to, inputs, now, verdict, ccipSent).1 == Failure(ProofExpired)
    ensures (s.MintAccepted(inputs, now, Success(true), true) && verdict.Failure?) ==>
      s.Mint(to, inputs, now, verdict, ccipSent).1 == Failure(verdict.error)
    ensures (s.MintAccepted(inputs, now, Success(true), true) && verdict == Success(false)) ==>
      s.Mint(to, inputs, now, verdict, ccipSent).1 == Failure(InvalidZkProof)
    ensures (s.MintAccepted(inputs, now, verdict, true) && !ccipSent) ==>
      s.Mint(to, inputs, now, verdict, ccipSent).1 == Failure(CrossChainSendFailed)
  {
  }

  /** The accepted time window is (now - 300, now] shifted by one: a proof
      stamped exactly `now` counts as from the future, one exactly 300
      seconds old is still fresh. */
  lemma MintTimeWindow(s: Storage, to: Address, inputs: seq<U256>, now: nat, verdict: Result<bool>, ccipSent: bool)
    requires |inputs| == PUBLIC_INPUT_COUNT
    requires inputs[MIN_BALANCE_INDEX] == s.minRequiredBalance && inputs[NULLIFIER_INDEX] !in s.usedNullifiers
    requires verdict == Success(true) && ccipSent
    ensures s.Mint(to, inputs, now, verdict, ccipSent).1.Success? <==>
      inputs[TIMESTAMP_INDEX] < now <= inputs[TIMESTAMP_INDEX] + MAX_PROOF_AGE
    ensures now == inputs[TIMESTAMP_INDEX] ==>
      s.Mint(to, inputs, now, verdict, ccipSent).1 == Failure(TimestampFromFuture)
    ensures now == inputs[TIMESTAMP_INDEX] + MAX_PROOF_AGE ==>
      s.Mint(to, inputs, now, verdict, ccipSent).1 == Success(s.nextTokenId)
  {
  }

  /** A successful mint consumes the nullifier, records `to` as the owner of
      the old next id, adds one to `to`'s balance, advances the next id, and
      changes nothing else. */
  lemma MintEffects(s: Storage, to: Address, inputs: seq<U256>, now: nat, verdict: Result<bool>, ccipSent: bool)
    requires s.Mint(to, inputs, now, verdict, ccipSent).1.Success?
    ensures var t := s.Mint(to, inputs, now, verdict, ccipSent).0;
      && inputs[NULLIFIER_INDEX] !in s.usedNullifiers
      && t.usedNullifiers == s.usedNullifiers + {inputs[NULLIFIER_INDEX]}
      && t.StoredOwner(s.nextTokenId) == to
      && (forall id :: id != s.nextTokenId ==> t.StoredOwner(id) == s.StoredOwner(id))
      && t.BalanceOf(to) == s.BalanceOf(to) + 1
      && (forall a: Address :: a != to ==> t.BalanceOf(a) == s.BalanceOf(a))
      && t.nextTokenId == s.nextTokenId + 1
      && t.owner == s.owner && t.minRequiredBalance == s.minRequiredBalance
  {
  }

  /** A nullifier cannot be spent twice: after a successful mint, any mint
      that presents the same nullifier and the same minimum balance is
      rejected as a replay, whatever proof and clock it comes with. */
  lemma MintReplayRejected(s: Storage, to: Address, inputs: seq<U256>, now: nat, verdict: Result<bool>, ccipSent: bool,
                           to2: Address, inputs2: seq<U256>, now2: nat, verdict2: Result<bool>, ccipSent2: bool)
    requires s.Mint(to, inputs, now, verdict, ccipSent).1.Success?
    requires |inputs2| == PUBLIC_INPUT_COUNT
    requires inputs2[NULLIFIER_INDEX] == inputs[NULLIFIER_INDEX]
    requires inputs2[MIN_BALANCE_INDEX] == inputs[MIN_BALANCE_INDEX]
    ensures s.Mint(to, inputs, now, verdict, ccipSent).0.Mint(to2, inputs2, now2, verdict2, ccipSent2).1
      == Failure(NullifierAlreadyUsed)
  {
    MintEffects(s, to, inputs, now, verdict, ccipSent);
  }

  /** Recording a fresh id for `to` adds one to `to`'s count and leaves
      every other address's count alone. */
  lemma RecordTokenCount(s: Storage, t: Storage, tokenId: nat, to: Address, a: Address)
    requires tokenId !in s.tokenOwners
    requires t.tokenOwners == s.tokenOwners[tokenId := to]
    requires t.tokenBalances == s.tokenBalances[to := s.BalanceOf(to) + 1]
    requires s.BalanceOf(a) == |s.TokensOwnedBy(a)|
    ensures t.BalanceOf(a) == |t.TokensOwnedBy(a)|
  {
    if a == to {
      assert t.TokensOwnedBy(a) == s.TokensOwnedBy(a) + {tokenId};
    } else {
      assert t.TokensOwnedBy(a) == s.TokensOwnedBy(a);
    }
  }

  /** Minting keeps the storage invariant. */
  lemma MintPreservesValid(s: Storage, to: Address, inputs: seq<U256>, now: nat, verdict: Result<bool>, ccipSent: bool)
    requires s.Valid()
    ensures s.Mint(to, inputs, now, verdict, ccipSent).0.Valid()
  {
    var t := s.Mint(to, inputs, now, verdict, ccipSent).0;
    if s.Mint(to, inputs, now, verdict, ccipSent).1.Success? {
      var tokenId := s.nextTokenId;
      var nullifier := inputs[NULLIFIER_INDEX];
      assert tokenId !in s.tokenOwners;
      assert t == s.(usedNullifiers := s.usedNullifiers + {nullifier},
                     tokenOwners := s.tokenOwners[tokenId := to],
                     tokenBalances := s.tokenBalances[to := s.BalanceOf(to) + 1],
                     nextTokenId := tokenId + 1);
      forall a: Address ensures t.BalanceOf(a) == |t.TokensOwnedBy(a)| {
        RecordTokenCount(s, t, tokenId, to, a);
      }
      assert nullifier !in s.usedNullifiers;
      assert |t.usedNullifiers| == |s.usedNullifiers| + 1;
    }
  }

  /** Changing the minimum balance keeps the storage invariant. */
  lemma SetMinRequiredBalancePreservesValid(s: Storage, caller: Address, newMin: U256)
    requires s.Valid()
    ensures s.SetMinRequiredBalance(caller, newMin).0.Valid()
  {
    var t := s.SetMinRequiredBalance(caller, newMin).0;
    forall a: Address ensures t.BalanceOf(a) == |t.TokensOwnedBy(a)| {
      assert t.TokensOwnedBy(a) == s.TokensOwnedBy(a);
    }
  }

  /** In a valid storage only minted ids have an owner. */
  lemma OwnerOfOnlyMinted(s: Storage, id: nat)
    requires s.Valid()
    requires s.OwnerOf(id).Success?
    ensures 1 <= id < s.nextTokenId
  {
  }

  /** After a successful mint to a non-zero address, `owner_of` of the new id
      answers that address, and a mint to the zero address leaves the new
      token reported as nonexistent although its id is used and the zero
      address's balance grows. */
  lemma OwnerOfAfterMint(s: Storage, to: Address, inputs: seq<U256>, now: nat, verdict: Result<bool>, ccipSent: bool)
    requires s.Mint(to, inputs, now, verdict, ccipSent).1.Success?
    ensures var (t, r) := s.Mint(to, inputs, now, verdict, ccipSent);
      && (to != ZERO_ADDRESS ==> t.OwnerOf(r.value) == Success(to))
      && (to == ZERO_ADDRESS ==> t.OwnerOf(r.value) == Failure(TokenDoesNotExist)
                                 && t.BalanceOf(ZERO_ADDRESS) == s.BalanceOf(ZERO_ADDRESS) + 1)
  {
    MintEffects(s, to, inputs, now, verdict, ccipSent);
  }

  /** A mint only succeeds on a proof blob of exactly 256 bytes, against a key
      with one gamma_abc point per public input plus one, and when the
      pairing precompile answered a 32-byte word ending in 1. */
  lemma MintRequiresAcceptedPairing(s: Storage, host: Host, vk: VerifyingKey, to: Address, proofData: seq<Byte>,
                                    inputs: seq<U256>, now: nat, ccipSent: bool)
    requires s.Mint(to, inputs, now, ProofVerdict(host, vk, proofData, inputs), ccipSent).1.Success?
    ensures |proofData| == PROOF_LENGTH
    ensures |vk.gammaAbcG1| == PUBLIC_INPUT_COUNT + 1
    ensures var proof := DeserializeProof(proofData).value;
      var vkX := VkX(host, vk.gammaAbcG1, Scalars(inputs), PUBLIC_INPUT_COUNT);
      && vkX.Success?
      && host(EC_PAIRING_PRECOMPILE, PairingCalldata(proof, vk, vkX.value)).Some?
      && PairingHolds(host(EC_PAIRING_PRECOMPILE, PairingCalldata(proof, vk, vkX.value)).value)
  {
    var proof := DeserializeProof(proofData);
    assert proof.Success?;
    assert Groth16Verdict(host, proof.value, vk, Scalars(inputs)) == Success(true);
  }

  /** The deployed contract: its storage fields, updated in place, and the
      verifying key it was built with. */
  class ZkMintContract {
    var owner: Address
    var nextTokenId: nat
    var tokenOwners: map<nat, Address>
    var tokenBalances: map<Address, nat>
    var usedNullifiers: set<U256>
    var minRequiredBalance: U256
    /** The key `get_verifying_key` compiles in. */
    const verifyingKey: VerifyingKey

    /** The fields as a `Storage` value. */
    function Snapshot(): Storage
      reads this
    {
      Storage(owner, nextTokenId, tokenOwners, tokenBalances, usedNullifiers, minRequiredBalance)
    }

    constructor(owner: Address, minRequiredBalance: U256, verifyingKey: VerifyingKey)
      ensures Snapshot() == Init(owner, minRequiredBalance)
      ensures this.verifyingKey == verifyingKey
    {
      this.owner := owner;
      this.nextTokenId := 1;
      this.tokenOwners := map[];
      this.tokenBalances := map[];
      this.usedNullifiers := {};
      this.minRequiredBalance := minRequiredBalance;
      this.verifyingKey := verifyingKey;
    }

    /** `mint_with_zk_proof`: the checks in order, then proof verification,
        then the cross-chain send, then the storage writes. `host` answers
        the precompile calls, `now` is the block timestamp. */
    method MintWithZkProof(host: Host, to: Address, proofData: seq<Byte>, inputs: seq<U256>, now: nat, ccipSent: bool)
      returns (r: Result<nat>)
      modifies this
      ensures (Snapshot(), r) ==
        old(Snapshot()).Mint(to, inputs, now, ProofVerdict(host, verifyingKey, proofData, inputs), ccipSent)
    {
      if |inputs| != PUBLIC_INPUT_COUNT {
        return Failure(InvalidNumberOfPublicInputs);
      }
      var nullifier := inputs[NULLIFIER_INDEX];
      var minBalanceFromProof := inputs[MIN_BALANCE_INDEX];
      var proofTimestamp := inputs[TIMESTAMP_INDEX];
      if minBalanceFromProof != minRequiredBalance {
        return Failure(MinRequiredBalanceMismatch);
      }
      if nullifier in usedNullifiers {
        return Failure(NullifierAlreadyUsed);
      }
      if now > proofTimestamp {
        var age := now - proofTimestamp;
        if age > MAX_PROOF_AGE {
          return Failure(ProofExpired);
        }
      } else {
        return Failure(TimestampFromFuture);
      }
      var verdict := VerifyProof(host, verifyingKey, proofData, inputs);
      if verdict.Failure? {
        return Failure(verdict.error);
      }
      var verified := verdict.value;
      if !verified {
        return Failure(InvalidZkProof);
      }
      if !ccipSent {
        return Failure(CrossChainSendFailed);
      }
      var tokenId := RecordMint(nullifier, to);
      return Success(tokenId);
    }

    /** The storage writes of a successful mint: mark the nullifier, record
        the owner of the next id, add one to the balance, advance the id. */
    method RecordMint(nullifier: U256, to: Address) returns (tokenId: nat)
      modifies this
      ensures tokenId == old(nextTokenId)
      ensures Snapshot() == old(Snapshot()).(
        usedNullifiers := old(usedNullifiers) + {nullifier},
        tokenOwners := old(tokenOwners)[tokenId := to],
        tokenBalances := old(tokenBalances)[to := old(Snapshot()).BalanceOf(to) + 1],
        nextTokenId := tokenId + 1)
    {
      usedNullifiers := usedNullifiers + {nullifier};
      tokenId := nextTokenId;
      tokenOwners := tokenOwners[tokenId := to];
      var currentBalance := if to in tokenBalances then tokenBalances[to] else 0;
      tokenBalances := tokenBalances[to := currentBalance + 1];
      nextTokenId := tokenId + 1;
    }

    /** `balance_of`. */
    function BalanceOf(a: Address): (r: nat)
      reads this
      ensures r == Snapshot().BalanceOf(a)
    {
      if a in tokenBalances then tokenBalances[a] else 0
    }

    /** `owner_of`. */
    function OwnerOf(id: nat): (r: Result<Address>)
      reads this
      ensures r == Snapshot().OwnerOf(id)
    {
      var owner := if id in tokenOwners then tokenOwners[id] else ZERO_ADDRESS;
      if owner == ZERO_ADDRESS then Failure(TokenDoesNotExist) else Success(owner)
    }

    /** `set_min_required_balance`, called by `caller`. */
    method SetMinRequiredBalance(caller: Address, newMin: U256) returns (r: Result<()>)
      modifies this
      ensures (Snapshot(), r) == old(Snapshot()).SetMinRequiredBalance(caller, newMin)
    {
      if caller != owner {
        return Failure(NotOwner);
      }
      minRequiredBalance := newMin;
      return Success(());
    }
  }
}
