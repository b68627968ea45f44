/** What the identity, ordering, digest and validation rules of a service node imply. */
module ServiceNodeProperties {
  import opened Wrappers
  import opened Bytes
  import opened Primitives
  import opened ServiceNodes

  // ---------------------------------------------------------------------------------------------
  // Identity and ordering

  /** `!=` is exactly the negation of `==`, and both look at the key alone. */
  lemma IdentityIsTheKey(a: ServiceNode, b: ServiceNode)
    ensures Equal(a, b) <==> a.snodePubKey == b.snodePubKey
    ensures NotEqual(a, b) <==> !Equal(a, b)
  {
  }

  /** All null nodes are the same node. */
  lemma NullNodesAreEqual(a: ServiceNode, b: ServiceNode)
    requires a.IsNull() && b.IsNull()
    ensures Equal(a, b)
  {
  }

  /** Identity is an equivalence. */
  lemma EqualIsEquivalence(a: ServiceNode, b: ServiceNode, c: ServiceNode)
    ensures Equal(a, a)
    ensures Equal(a, b) ==> Equal(b, a)
    ensures Equal(a, b) && Equal(b, c) ==> Equal(a, c)
  {
  }

  /** The ordering is strict and goes by registration time, whatever the keys. */
  lemma LessIsRegistrationOrder(a: ServiceNode, b: ServiceNode, c: ServiceNode)
    ensures Less(a, b) <==> a.regtime < b.regtime
    ensures !Less(a, a)
    ensures Less(a, b) ==> !Less(b, a)
    ensures Less(a, b) && Less(b, c) ==> Less(a, c)
  {
  }

  /** Identity and ordering disagree: the same node may be ordered before itself under another registration time. */
  lemma OrderingIgnoresIdentity(a: ServiceNode, b: ServiceNode)
    requires a.snodePubKey == b.snodePubKey && a.regtime < b.regtime
    ensures Equal(a, b) && Less(a, b)
  {
  }

  // ---------------------------------------------------------------------------------------------
  // Digest and serialisation streams

  /** The network serialisation is the signing-digest stream followed by the signature. */
  lemma SerializeIsSigHashStreamThenSignature(n: ServiceNode)
    ensures n.Serialize() == n.SigHashStream() + [BytesField(n.signature)]
  {
  }

  /** The content-hash stream is the signing-digest stream followed by the signature and the registration time. */
  lemma HashStreamIsSigHashStreamThenSignatureAndRegtime(n: ServiceNode)
    ensures n.HashStream() == n.SigHashStream() + [BytesField(n.signature), I64Field(n.regtime)]
    ensures n.HashStream() == n.Serialize() + [I64Field(n.regtime)]
  {
  }

  /** The signing digest depends on the five covered fields only: not on the signature, regtime or pingtime. */
  lemma SigHashIgnoresSignatureAndTimes(a: ServiceNode, b: ServiceNode, crypto: Crypto)
    requires a.snodePubKey == b.snodePubKey && a.tier == b.tier && a.collateral == b.collateral
    requires a.bestBlock == b.bestBlock && a.bestBlockHash == b.bestBlockHash
    ensures a.SigHashStream() == b.SigHashStream()
    ensures a.SigHash(crypto) == b.SigHash(crypto)
  {
  }

  /** Changing any covered field changes the signing-digest input. */
  lemma SigHashStreamDeterminesCoveredFields(a: ServiceNode, b: ServiceNode)
    requires a.SigHashStream() == b.SigHashStream()
    ensures a.snodePubKey == b.snodePubKey && a.tier == b.tier && a.collateral == b.collateral
    ensures a.bestBlock == b.bestBlock && a.bestBlockHash == b.bestBlockHash
  {
  }

  /** The content-hash input covers the signature and the registration time besides the signing fields. */
  lemma HashStreamDeterminesSignatureAndRegtime(a: ServiceNode, b: ServiceNode)
    requires a.HashStream() == b.HashStream()
    ensures a.SigHashStream() == b.SigHashStream()
    ensures a.signature == b.signature && a.regtime == b.regtime
  {
  }

  /** The serialisation never carries the in-memory fields, and it determines every wire field. */
  lemma SerializeDeterminesWireFields(a: ServiceNode, b: ServiceNode)
    requires a.Serialize() == b.Serialize()
    ensures a.snodePubKey == b.snodePubKey && a.tier == b.tier && a.collateral == b.collateral
    ensures a.bestBlock == b.bestBlock && a.bestBlockHash == b.bestBlockHash && a.signature == b.signature
  {
  }


  /** The anchor defaults of CreateSigHash are block 0 and the null hash. */
  lemma CreateSigHashDefaults(crypto: Crypto, key: seq<Byte>, tier: U32, collateral: seq<OutPoint>)
    ensures CreateSigHash(crypto, key, tier, collateral) == CreateSigHash(crypto, key, tier, collateral, 0, NULL_HASH)
  {
  }

  // ---------------------------------------------------------------------------------------------
  // Validation

  /** A node whose anchor is not an ancestor of the tip is rejected, whatever its signature or collateral. */
  lemma AnchorCheckedFirst(n: ServiceNode, chain: ChainView, crypto: Crypto)
    requires !chain.isBlockValid(n.bestBlock, n.bestBlockHash)
    ensures !n.IsValidSpec(chain, crypto)
  {
  }

  /** A node whose key is not fully valid is rejected. */
  lemma InvalidKeyRejected(n: ServiceNode, chain: ChainView, crypto: Crypto)
    requires !crypto.isFullyValid(n.snodePubKey)
    ensures !n.IsValidSpec(chain, crypto)
  {
  }

  /** Past the first two checks, an open-tier node is valid exactly when its own key produced the signature. */
  lemma OpenTierIsSelfSigned(n: ServiceNode, chain: ChainView, crypto: Crypto)
    requires n.tier == OPEN
    requires chain.isBlockValid(n.bestBlock, n.bestBlockHash) && crypto.isFullyValid(n.snodePubKey)
    ensures n.IsValidSpec(chain, crypto) <==>
      var recovered := crypto.recoverCompact(n.SigHash(crypto), n.signature);
      recovered.Some? && crypto.getId(recovered.value) == crypto.getId(n.snodePubKey)
  {
  }

  /** The open tier never consults the transaction lookup. */
  lemma OpenTierIgnoresTxLookup(n: ServiceNode, chain: ChainView, crypto: Crypto, getTx: OutPoint -> Option<Transaction>)
    requires n.tier == OPEN
    ensures n.IsValidSpec(chain, crypto) == n.IsValidSpec(chain.(getTx := getTx), crypto)
  {
  }

  /** A node on any tier other than open or SPV is rejected. */
  lemma UnknownTierRejected(n: ServiceNode, chain: ChainView, crypto: Crypto)
    requires n.tier != OPEN && n.tier != SPV
    ensures !n.IsValidSpec(chain, crypto)
  {
  }

  /** A collateral-tier node without collateral is rejected. */
  lemma EmptyCollateralRejected(n: ServiceNode, chain: ChainView, crypto: Crypto)
    requires n.tier != OPEN && n.collateral == []
    ensures !n.IsValidSpec(chain, crypto)
  {
  }

  /** One outpoint whose transaction is missing or spent rejects the node, whatever the others hold. */
  lemma MissingTransactionRejected(n: ServiceNode, chain: ChainView, crypto: Crypto, op: OutPoint)
    requires n.tier != OPEN && op in n.collateral
    requires chain.getTx(op) == None
    ensures !n.IsValidSpec(chain, crypto)
  {
    assert op in Unique(n.collateral);
  }

  /** One outpoint whose index is past its transaction's outputs rejects the node. */
  lemma OutputIndexOutOfRangeRejected(n: ServiceNode, chain: ChainView, crypto: Crypto, op: OutPoint)
    requires n.tier != OPEN && op in n.collateral
    requires chain.getTx(op).Some? && |chain.getTx(op).value.vout| <= op.n
    ensures !n.IsValidSpec(chain, crypto)
  {
    assert op in Unique(n.collateral);
  }

  /** One outpoint whose script does not pay a single key rejects the node. */
  lemma NonKeyDestinationRejected(n: ServiceNode, chain: ChainView, crypto: Crypto, op: OutPoint)
    requires n.tier != OPEN && op in n.collateral
    requires OutputAt(chain, op).Some?
    requires !crypto.extractDestination(OutputAt(chain, op).value.scriptPubKey).Some?
          || !crypto.extractDestination(OutputAt(chain, op).value.scriptPubKey).value.KeyDestination?
    ensures !n.IsValidSpec(chain, crypto)
  {
    assert op in Unique(n.collateral);
  }

  /** A collateral-tier node whose signature yields no key is rejected. */
  lemma CollateralRecoveryFailureRejected(n: ServiceNode, chain: ChainView, crypto: Crypto)
    requires n.tier != OPEN
    requires crypto.recoverCompact(n.SigHash(crypto), n.signature).None?
    ensures !n.IsValidSpec(chain, crypto)
  {
  }

  /** One outpoint paying a key other than the signer's rejects the node. */
  lemma SignerMismatchRejected(n: ServiceNode, chain: ChainView, crypto: Crypto, op: OutPoint)
    requires n.tier != OPEN && op in n.collateral
    requires OutputAt(chain, op).Some?
    requires var dest := crypto.extractDestination(OutputAt(chain, op).value.scriptPubKey);
      var recovered := crypto.recoverCompact(n.SigHash(crypto), n.signature);
      dest.Some? && dest.value.KeyDestination? && recovered.Some? && crypto.getId(recovered.value) != dest.value.keyId
    ensures !n.IsValidSpec(chain, crypto)
  {
    assert op in Unique(n.collateral);
  }

  /** A valid node off the open tier is on the SPV tier with at least COLLATERAL_SPV behind it. */
  lemma ValidCollateralNodeIsFunded(n: ServiceNode, chain: ChainView, crypto: Crypto)
    requires n.tier != OPEN && n.IsValidSpec(chain, crypto)
    ensures n.tier == SPV && n.collateral != []
    ensures CollateralTotal(chain, Unique(n.collateral)) >= COLLATERAL_SPV
    ensures forall op | op in n.collateral :: CollateralSigned(chain, crypto, n.SigHash(crypto), n.signature, op)
  {
  }

  /** Listing an outpoint again adds nothing to the collateral total. */
  lemma DuplicateCountsOnce(chain: ChainView, collateral: seq<OutPoint>, op: OutPoint)
    requires op in collateral
    ensures CollateralTotal(chain, Unique(collateral + [op])) == CollateralTotal(chain, Unique(collateral))
  {
    assert Unique(collateral + [op]) == Unique(collateral);
  }

  /** The total of one outpoint, however often it is listed, is its amount. */
  lemma {:induction false} RepeatedOutpointTotal(chain: ChainView, op: OutPoint, k: nat)
    requires k >= 1
    ensures CollateralTotal(chain, Unique(seq(k, _ => op))) == OutputValue(chain, op)
  {
    assert Unique(seq(k, _ => op)) == {op} by {
      assert seq(k, _ => op)[0] == op;
    }
    CollateralTotalRemove(chain, {op}, op);
    assert {op} - {op} == {};
  }

  /**
    Two distinct outpoints that each back the signature, and hold at least COLLATERAL_SPV together,
    make an SPV node with a valid anchor and key valid, though neither may hold enough alone.
  */
  lemma {:induction false} TwoOutpointsSuffice(n: ServiceNode, chain: ChainView, crypto: Crypto, a: OutPoint, b: OutPoint)
    requires chain.isBlockValid(n.bestBlock, n.bestBlockHash) && crypto.isFullyValid(n.snodePubKey)
    requires n.tier == SPV && n.collateral == [a, b] && a != b
    requires CollateralSigned(chain, crypto, n.SigHash(crypto), n.signature, a)
    requires CollateralSigned(chain, crypto, n.SigHash(crypto), n.signature, b)
    requires OutputValue(chain, a) + OutputValue(chain, b) >= COLLATERAL_SPV
    ensures n.IsValidSpec(chain, crypto)
  {
    var ops := Unique(n.collateral);
    assert ops == {a, b};
    CollateralTotalRemove(chain, ops, a);
    assert ops - {a} == {b};
    CollateralTotalRemove(chain, {b}, b);
    assert {b} - {b} == {};
  }
}
