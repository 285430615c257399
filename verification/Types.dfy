/**
 Values that blocks commit to, and an ideal hash over them.

 BLAKE3 digests are free terms: two digests are equal exactly when they hash the same kind of value
 (each call site has its own domain tag) with the same contents. Signature and proof-of-work outcomes
 are the `authentic` fields.
 */
module Types {
  import opened Numbers

  /** Addresses as the ledger keys them: hex text. The empty text means "no miner". */
  type Address = string

  datatype Account = Account(balance: u64, nonce: u64)

  datatype Transaction = Transaction(from: Address, to: Address, amount: u64, nonce: u64, fee: u64)

  /** `authentic` is the outcome of the address and signature checks in `SignedTransaction::verify`. */
  datatype SignedTransaction = SignedTransaction(tx: Transaction, signature: string, authentic: bool) {
    /** `validate_fields` and then the signature check. */
    predicate Verifies() {
      tx.amount != 0 && tx.from != tx.to && authentic
    }

    /** Binds every field of the transfer and the signature, but not the public key. */
    function Id(): Digest {
      TxId(tx, signature)
    }
  }

  datatype Header = Header(
    version: nat,
    height: u64,
    prevHash: Digest,
    merkleRoot: Digest,
    stateRoot: Digest,
    timestamp: u64,
    nonce: u64,
    miner: Address,
    difficultyBits: nat,
    seed: Digest)

  datatype Digest =
    | ZeroDigest
    | TxId(tx: Transaction, signature: string)
    | MerkleNode(left: Digest, right: Digest)
    | StateRoot(accounts: map<Address, Account>)
    | HeaderHash(header: Header)
    | SeedHash(tip: nat, utxo: nat, stalePool: nat)

  function TxIds(txs: seq<SignedTransaction>): seq<Digest> {
    seq(|txs|, i requires 0 <= i < |txs| => txs[i].Id())
  }
}
