/**
 * The wire-level entities of ONECOIN and the cryptography they rest on.
 *
 * Thirty-two byte strings (public keys, AWE-IDs, digests) are the naturals they spell in big-endian, which keeps
 * their order. Hashing and signature checking are functions handed in by a `Crypto` record.
 */
module Onecoin {
  import opened Prelude

  type Key = nat
  type AweId = nat
  type Digest = nat
  type Signature = nat

  datatype Transaction = Transaction(
    version: nat, nonce: u64, sender: Key, recipient: AweId, amount: u128, memo: Option<seq<byte>>, signature: Signature)

  datatype Receipt = Receipt(
    node: AweId, storageByteHours: u128, relayBytes: u64, bandwidthBytes: u64, computeUnits: u64, uptimeMinutes: u64,
    periodStart: u64, periodEnd: u64)

  datatype SignedReceipt = SignedReceipt(receipt: Receipt, verifierKey: Key, signature: Signature)

  datatype BlockHeader = BlockHeader(
    version: nat, height: u64, previousHash: Digest, transactionsHash: Digest, proposer: AweId, timestamp: u64)

  datatype Block = Block(header: BlockHeader, transactions: seq<Transaction>, signature: Signature)

  datatype Vote = Vote(blockHash: Digest, height: u64, voter: AweId, approve: bool, signature: Signature)

  datatype Certificate = Certificate(blockHash: Digest, height: u64, votes: seq<Vote>)

  /** What is signed: the entity with its signature field zeroed. */
  datatype Signable = TxBody(tx: Transaction) | ReceiptBody(r: SignedReceipt) | BlockBody(b: Block) | VoteBody(v: Vote)

  /** What is hashed: the entity as it stands. */
  datatype Hashable = TxBytes(tx: Transaction) | TxListBytes(txs: seq<Transaction>) | ReceiptBytes(r: SignedReceipt) | BlockBytes(b: Block)

  datatype Crypto = Crypto(aweId: Key -> AweId, hash: Hashable -> Digest, verifies: (Key, Signable, Signature) -> bool)

  datatype Identity = Identity(key: Key, sign: Signable -> Signature)

  ghost predicate CollisionFree(c: Crypto) {
    forall x, y :: c.hash(x) == c.hash(y) ==> x == y
  }

  /** The signer's own key verifies what it signs. */
  ghost predicate SignsFor(c: Crypto, who: Identity) {
    forall m :: c.verifies(who.key, m, who.sign(m))
  }

  const MAX_TRANSACTION_MEMO: nat := 256

  function TxId(c: Crypto, tx: Transaction): Digest {
    c.hash(TxBytes(tx))
  }

  function BlockHash(c: Crypto, b: Block): Digest {
    c.hash(BlockBytes(b))
  }

  predicate TxVerifies(c: Crypto, tx: Transaction, key: Key) {
    && tx.version == 1
    && tx.amount != 0
    && (tx.memo.Some? ==> |tx.memo.value| <= MAX_TRANSACTION_MEMO)
    && c.verifies(key, TxBody(tx.(signature := 0)), tx.signature)
  }

  predicate ReceiptVerifies(c: Crypto, r: SignedReceipt) {
    c.verifies(r.verifierKey, ReceiptBody(r.(signature := 0)), r.signature)
  }

  predicate ProposerVerifies(c: Crypto, b: Block, key: Key) {
    && b.header.version == 1
    && b.header.proposer == c.aweId(key)
    && c.verifies(key, BlockBody(b.(signature := 0)), b.signature)
  }

  predicate VoteVerifies(c: Crypto, v: Vote, key: Key) {
    && v.voter == c.aweId(key)
    && c.verifies(key, VoteBody(v.(signature := 0)), v.signature)
  }
}
