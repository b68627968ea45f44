/**
  The types and operations that servicenode.h uses from the rest of the node: outpoints, transactions,
  destinations, the hash writer, the secp256k1 key operations and the two chain oracles. Their
  implementations are not part of this model; each operation is a function value handed in by the
  caller, so that every property proved holds whatever they compute.
*/
module Primitives {
  import opened Wrappers
  import opened Bytes

  /** A uint256 (transaction ids, block hashes, digests), as its 32 bytes. */
  type Hash256 = h: seq<Byte> | |h| == 32 witness seq(32, _ => 0)

  /** The all-zero uint256 that a default-constructed uint256 holds. */
  const NULL_HASH: Hash256 := seq(32, _ => 0)

  /** A CKeyID: the 160-bit hash of a public key, as its 20 bytes. */
  type KeyId = k: seq<Byte> | |k| == 20 witness seq(20, _ => 0)

  /** A COutPoint: a transaction id and an output index within that transaction. */
  datatype OutPoint = OutPoint(hash: Hash256, n: U32)

  /** A CTxOut: an amount (CAmount) and a locking script. */
  datatype TxOut = TxOut(nValue: int, scriptPubKey: seq<Byte>)

  /** A CTransaction, as far as servicenode.h looks into it: its outputs. */
  datatype Transaction = Transaction(vout: seq<TxOut>)

  /** A CTxDestination: a single key hash, or any other destination kind (script hash, ...). */
  datatype Destination = KeyDestination(keyId: KeyId) | OtherDestination

  /**
    One serialised field of a hash-writer or network stream. The byte encoding of each field
    (compact-size prefixes, little-endian integers) is abstracted away; the kind tag keeps fields of
    different types apart, as their encodings do.
  */
  datatype Field =
    | BytesField(bytes: seq<Byte>)
    | U32Field(u: U32)
    | OutPointsField(outpoints: seq<OutPoint>)
    | Hash256Field(h: Hash256)
    | I64Field(i: I64)

  /**
    Operations whose code lies outside servicenode.h:
    - hash: CHashWriter's digest of the serialised fields;
    - isFullyValid: CPubKey::IsFullyValid of raw key bytes;
    - recoverCompact: CPubKey::RecoverCompact, the key recovered from a compact signature over a digest;
    - getId: CPubKey::GetID, the key id of raw key bytes;
    - extractDestination: ExtractDestination of a locking script, None when it has no destination.
  */
  datatype Crypto = Crypto(
    hash: seq<Field> -> Hash256,
    isFullyValid: seq<Byte> -> bool,
    recoverCompact: (Hash256, seq<Byte>) -> Option<seq<Byte>>,
    getId: seq<Byte> -> KeyId,
    extractDestination: seq<Byte> -> Option<Destination>)

  /**
    The two chain oracles isValid is given:
    - getTx: the transaction holding an unspent outpoint, None when it is missing or spent;
    - isBlockValid: whether a block number and hash name an ancestor of the chain tip.
  */
  datatype ChainView = ChainView(
    getTx: OutPoint -> Option<Transaction>,
    isBlockValid: (U32, Hash256) -> bool)
}
