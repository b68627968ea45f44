/**
  A service node announcement: its identity key, tier, collateral, chain anchor and signature, the
  streams its digests are computed over, and the fail-closed validation of an announcement against
  the chain.
*/
module ServiceNodes {
  import opened Wrappers
  import opened Bytes
  import opened Primitives

  /** The chain's base unit in its smallest denomination. */
  const COIN: int := 100_000_000

  /** The least total collateral of an SPV-tier node. */
  const COLLATERAL_SPV: int := 5000 * COIN

  /** The tiers, as their uint32 wire values. */
  const OPEN: U32 := 0
  const SPV: U32 := 50

  /** The fields of the signing digest, in order; the chain anchor defaults to block 0 and the null hash. */
  function CreateSigHashStream(snodePubKey: seq<Byte>, tier: U32, collateral: seq<OutPoint>,
                               bestBlock: U32 := 0, bestBlockHash: Hash256 := NULL_HASH): (r: seq<Field>)
    ensures |r| == 5
    ensures r[0] == BytesField(snodePubKey) && r[1] == U32Field(tier) && r[2] == OutPointsField(collateral)
    ensures r[3] == U32Field(bestBlock) && r[4] == Hash256Field(bestBlockHash)
  {
    [BytesField(snodePubKey), U32Field(tier), OutPointsField(collateral), U32Field(bestBlock), Hash256Field(bestBlockHash)]
  }

  /** The signing digest of an announcement's identity-defining fields: the hash of the stream above. */
  function CreateSigHash(crypto: Crypto, snodePubKey: seq<Byte>, tier: U32, collateral: seq<OutPoint>,
                         bestBlock: U32 := 0, bestBlockHash: Hash256 := NULL_HASH): (r: Hash256)
    ensures r == crypto.hash(CreateSigHashStream(snodePubKey, tier, collateral, bestBlock, bestBlockHash))
  {
    crypto.hash([BytesField(snodePubKey), U32Field(tier), OutPointsField(collateral), U32Field(bestBlock),
                 Hash256Field(bestBlockHash)])
  }

  /** The collateral as the set the validation loop walks: each distinct outpoint once. */
  function Unique(collateral: seq<OutPoint>): (r: set<OutPoint>)
  {
    set op | op in collateral
  }

  /** The output an outpoint names, when the chain has its transaction and the index is in range. */
  function OutputAt(chain: ChainView, op: OutPoint): (r: Option<TxOut>)
  {
    match chain.getTx(op)
    case None => None
    case Some(tx) => if op.n < |tx.vout| then Some(tx.vout[op.n]) else None
  }

  /** The amount an outpoint contributes to the collateral total; nothing when it names no output. */
  function OutputValue(chain: ChainView, op: OutPoint): (r: int)
  {
    match OutputAt(chain, op)
    case None => 0
    case Some(out) => out.nValue
  }

  /**
    An outpoint backs a signature when it names an output whose locking script pays a single key,
    the key recovered from the signature over the digest exists, and its id is that key's id.
  */
  predicate CollateralSigned(chain: ChainView, crypto: Crypto, sighash: Hash256, signature: seq<Byte>, op: OutPoint)
  {
    match OutputAt(chain, op)
    case None => false
    case Some(out) =>
      match crypto.extractDestination(out.scriptPubKey)
      case Some(KeyDestination(keyId)) =>
        (match crypto.recoverCompact(sighash, signature)
         case Some(pubkey) => crypto.getId(pubkey) == keyId
         case None => false)
      case _ => false
  }

  ghost function Pick(ops: set<OutPoint>): (r: OutPoint)
    requires ops != {}
  {
    var op :| op in ops; op
  }

  /** The sum of the amounts of a set of outpoints, each counted once. */
  ghost function CollateralTotal(chain: ChainView, ops: set<OutPoint>): (r: int)
  {
    if ops == {} then 0
    else
      var op := Pick(ops);
      OutputValue(chain, op) + CollateralTotal(chain, ops - {op})
  }

  /** The total does not depend on which outpoint is taken out first. */
  lemma {:induction false} CollateralTotalRemove(chain: ChainView, ops: set<OutPoint>, op: OutPoint)
    requires op in ops
    ensures CollateralTotal(chain, ops) == OutputValue(chain, op) + CollateralTotal(chain, ops - {op})
    decreases ops
  {
    var first := Pick(ops);
    if first != op {
      CollateralTotalRemove(chain, ops - {first}, op);
      CollateralTotalRemove(chain, ops - {op}, first);
      assert ops - {first} - {op} == ops - {op} - {first};
    }
  }

  class ServiceNode {
    // Network-serialised fields.
    var snodePubKey: seq<Byte>
    var tier: U32
    var collateral: seq<OutPoint>
    var bestBlock: U32
    var bestBlockHash: Hash256
    var signature: seq<Byte>
    // In-memory fields.
    var regtime: I64
    var pingtime: I64

    /** A null node registered at `now`, the adjusted time of construction. */
    constructor (now: I64)
      ensures snodePubKey == [] && IsNull()
      ensures tier == OPEN && collateral == [] && bestBlock == 0 && bestBlockHash == NULL_HASH && signature == []
      ensures regtime == now && pingtime == 0
    {
      snodePubKey := [];
      tier := OPEN;
      collateral := [];
      bestBlock := 0;
      bestBlockHash := NULL_HASH;
      signature := [];
      regtime := now;
      pingtime := 0;
    }

    /** A node is null when its key is empty: the serialisation then starts with an empty byte vector. */
    function IsNull(): (r: bool)
      reads this
      ensures r <==> Serialize()[0] == BytesField([])
    {
      snodePubKey == []
    }

    /** Records a heartbeat at `now`, the adjusted time of its arrival; nothing else changes. */
    method UpdatePing(now: I64)
      modifies this`pingtime
      ensures pingtime == now
    {
      pingtime := now;
    }

    /** The network serialisation: the wire fields in order, without the in-memory ones. */
    function Serialize(): (r: seq<Field>)
      reads this
      ensures |r| == 6 && StartsWithWireFields(r)
    {
      [BytesField(snodePubKey), U32Field(tier), OutPointsField(collateral), U32Field(bestBlock),
       Hash256Field(bestBlockHash), BytesField(signature)]
    }

    /**
      Reads the six wire fields from the front of a network stream and returns what follows them. A
      stream that does not start with the six wire fields, of their kinds, is refused: nothing is read
      and nothing changes. The in-memory fields are never read.
    */
    method Unserialize(stream: seq<Field>) returns (ok: bool, rest: seq<Field>)
      modifies this`snodePubKey, this`tier, this`collateral, this`bestBlock, this`bestBlockHash, this`signature
      ensures ok <==> StartsWithWireFields(stream)
      ensures ok ==> Serialize() + rest == stream
      ensures !ok ==> rest == stream && Serialize() == old(Serialize())
    {
      if !StartsWithWireFields(stream) {
        return false, stream;
      }
      rest := stream[6..];
      snodePubKey := stream[0].bytes;
      tier := stream[1].u;
      collateral := stream[2].outpoints;
      bestBlock := stream[3].u;
      bestBlockHash := stream[4].h;
      signature := stream[5].bytes;
      assert stream == stream[..6] + rest;
      ok := true;
    }

    /** The signing-digest input: the serialisation without its final signature field. */
    function SigHashStream(): (r: seq<Field>)
      reads this
      ensures r == Serialize()[..5]
    {
      CreateSigHashStream(snodePubKey, tier, collateral, bestBlock, bestBlockHash)
    }

    /** The signing digest: the hash of the serialisation without the signature. */
    function SigHash(crypto: Crypto): (r: Hash256)
      reads this
      ensures r == crypto.hash(Serialize()[..5])
    {
      assert SigHashStream() == Serialize()[..5];
      CreateSigHash(crypto, snodePubKey, tier, collateral, bestBlock, bestBlockHash)
    }

    /** The local content-hash input: the signing fields, then the signature, then the registration time. */
    function HashStream(): (r: seq<Field>)
      reads this
      ensures r == Serialize() + [I64Field(regtime)]
    {
      [BytesField(snodePubKey), U32Field(tier), OutPointsField(collateral), U32Field(bestBlock),
       Hash256Field(bestBlockHash), BytesField(signature), I64Field(regtime)]
    }

    /** The content hash: the hash of the serialisation followed by the registration time. */
    function GetHash(crypto: Crypto): (r: Hash256)
      reads this
      ensures r == crypto.hash(Serialize() + [I64Field(regtime)])
    {
      crypto.hash(HashStream())
    }

    /** The open tier's check: the key recovered from the signature over the signing digest has the node key's id. */
    predicate SelfSigned(crypto: Crypto)
      reads this
    {
      match crypto.recoverCompact(SigHash(crypto), signature)
      case None => false
      case Some(pubkey) => crypto.getId(snodePubKey) == crypto.getId(pubkey)
    }

    /**
      When an announcement is valid: its anchor block is an ancestor of the tip, its key is fully valid,
      and either it is on the open tier and self-signed, or it names collateral, every distinct outpoint
      of which backs the signature, it is on the SPV tier and the distinct outpoints hold at least
      COLLATERAL_SPV together. No other tier is ever valid.
    */
    ghost predicate IsValidSpec(chain: ChainView, crypto: Crypto)
      reads this
    {
      && chain.isBlockValid(bestBlock, bestBlockHash)
      && crypto.isFullyValid(snodePubKey)
      && if tier == OPEN then SelfSigned(crypto)
         else
           && collateral != []
           && (forall op | op in Unique(collateral) :: CollateralSigned(chain, crypto, SigHash(crypto), signature, op))
           && tier == SPV
           && CollateralTotal(chain, Unique(collateral)) >= COLLATERAL_SPV
    }

    /** The validation, check by check, returning at the first failure. */
    method IsValid(chain: ChainView, crypto: Crypto) returns (valid: bool)
      ensures valid <==> IsValidSpec(chain, crypto)
    {
      // The block the node reports must be an ancestor of our chain tip.
      if !chain.isBlockValid(bestBlock, bestBlockHash) {
        return false;
      }
      if !crypto.isFullyValid(snodePubKey) {
        return false;
      }
      // On the open tier the node key itself must have produced the signature.
      if tier == OPEN {
        var sighash := SigHash(crypto);
        var pubkey2 := crypto.recoverCompact(sighash, signature);
        if pubkey2.None? {
          return false;
        }
        return crypto.getId(snodePubKey) == crypto.getId(pubkey2.value);
      }
      if collateral == [] {
        return false;
      }
      var sighash := SigHash(crypto);
      var total := 0;
      var unique := Unique(collateral);
      var remaining := unique;
      // Every distinct outpoint must pay a key that produced the signature.
      while remaining != {}
        invariant remaining <= unique
        invariant forall op | op in unique - remaining :: CollateralSigned(chain, crypto, sighash, signature, op)
        invariant total == CollateralTotal(chain, unique - remaining)
        decreases remaining
      {
        var op :| op in remaining;
        var tx := chain.getTx(op);
        if tx.None? {
          return false;
        }
        if |tx.value.vout| <= op.n {
          return false;
        }
        var out := tx.value.vout[op.n];
        total := total + out.nValue;
        var address := crypto.extractDestination(out.scriptPubKey);
        if address.None? {
          return false;
        }
        if !address.value.KeyDestination? {
          return false;
        }
        var pubkey := crypto.recoverCompact(sighash, signature);
        if pubkey.None? {
          return false;
        }
        if crypto.getId(pubkey.value) != address.value.keyId {
          return false;
        }
        CollateralTotalRemove(chain, unique - remaining + {op}, op);
        assert unique - remaining + {op} - {op} == unique - remaining;
        assert unique - (remaining - {op}) == unique - remaining + {op};
        remaining := remaining - {op};
      }
      assert unique - remaining == unique;
      return tier == SPV && total >= COLLATERAL_SPV;
    }
  }

  /** A stream that starts with the six wire fields of a node, each of its kind. */
  predicate StartsWithWireFields(stream: seq<Field>)
  {
    && |stream| >= 6
    && stream[0].BytesField?
    && stream[1].U32Field?
    && stream[2].OutPointsField?
    && stream[3].U32Field?
    && stream[4].Hash256Field?
    && stream[5].BytesField?
  }

  /** Identity: two nodes are the same node when their keys are. */
  function Equal(a: ServiceNode, b: ServiceNode): (r: bool)
    reads a, b
    ensures r <==> a.Serialize()[0] == b.Serialize()[0]
    ensures r ==> a.IsNull() == b.IsNull()
  {
    a.snodePubKey == b.snodePubKey
  }

  /** The exact negation of Equal. */
  function NotEqual(a: ServiceNode, b: ServiceNode): (r: bool)
    reads a, b
    ensures r <==> !Equal(a, b)
  {
    a.snodePubKey != b.snodePubKey
  }

  /** Ordering: by registration time alone; no node precedes itself. */
  function Less(a: ServiceNode, b: ServiceNode): (r: bool)
    reads a, b
    ensures r ==> a != b
  {
    a.regtime < b.regtime
  }
}
