# Service node announcements and the legacy XBridge packet, in Dafny

This project models `src/servicenode/servicenode.h` of the Blocknet node. The header holds three parts.

- `LegacyXBridgePacket::CopyFrom` decodes a fixed-layout legacy packet. It skips a 28-byte
  address-and-timestamp prefix. It then reads four 32-bit integers, a 33-byte compressed key and a
  64-byte signature. Every remaining byte is the body.
- `ServiceNode` is a service node announcement. It carries a key, a tier, collateral outpoints, a chain
  anchor and a signature, plus two in-memory times. It defines identity by key and ordering by
  registration time. It builds three field streams: the network serialisation, the signing-digest
  input and the local content-hash input.
- `ServiceNode::isValid` is a fail-closed validation. It checks the anchor block and the key. For the
  OPEN tier (0) it checks a self-signature. For other tiers it walks the distinct collateral outpoints.
  Each must name an unspent output paying a single key whose id matches the key recovered from the
  signature. The node is accepted only on the SPV tier (50) with at least 5000 coins in total.
- `ServiceNodePing` is a heartbeat: a key and a signature, serialised and hashed in that order.

Modules:

- `Bytes` (bytes.dfy): byte and integer types, and the little-endian layout of a `uint32_t`.
- `Primitives` (primitives.dfy): outpoints, transactions and destinations. It also holds the
  operations this header calls but does not define (hash writer, key checks, signature recovery,
  destination extraction, the two chain oracles). These are function values passed in by the caller.
- `XBridgePacket` (xbridge_packet.dfy): the packet class with `CopyFrom`, the decoding function `Parse`
  it is proved against, and an encoder for the round trips.
- `ServiceNodes` (servicenode.dfy): the `ServiceNode` class, its streams, the validation method
  `IsValid` and the specification `IsValidSpec` it is proved against.
- `ServiceNodeProperties` (servicenode_properties.dfy): lemmas about identity, ordering, streams and
  validation.
- `Pings` (ping.dfy): the heartbeat record.
- `Wrappers` (wrappers.dfy): `Option` and `Result`.

A hash is `crypto.hash` applied to a sequence of typed fields (`Field`). The facts proved are about
which fields go into which stream, and in what order. They hold for every hash function.

## Model

| member | source | states |
|---|---|---|
| `Bytes.ToLEFromLE` | src/servicenode/servicenode.h:26-29 | laying out the little-endian value of a byte string gives back those bytes |
| `Bytes.U32RoundTrip` | src/servicenode/servicenode.h:26-29 | a `uint32_t` written as four little-endian bytes reads back as itself |
| `Bytes.U32BytesRoundTrip` | src/servicenode/servicenode.h:26-29 | four bytes read as a `uint32_t` and written again are the same four bytes |
| `XBridgePacket.Parse` | src/servicenode/servicenode.h:24-33 | decoding fails exactly when the packet is shorter than the 141-byte header; on success the key has 33 bytes, the signature 64, and the body has the packet's length minus 141 |
| `XBridgePacket.LegacyXBridgePacket.CopyFrom` | src/servicenode/servicenode.h:24-33 | reading the fields at an advancing offset sets exactly the fields `Parse` decodes; a packet shorter than the header is refused and leaves the fields as they were |
| `XBridgePacket.LegacyXBridgePacket.constructor` | src/servicenode/servicenode.h:35-42 | a packet before `CopyFrom` has an empty key, signature and body; the integer members, which the source leaves uninitialised, hold no particular value |
| `XBridgePacket.ParseOffsets` | src/servicenode/servicenode.h:25-32 | version, command, timestamp and bodysize are the little-endian words at 28, 32, 36 and 40; the key is bytes 44..77, the signature 77..141, the body 141..end |
| `XBridgePacket.ParseIgnoresPrefix` | src/servicenode/servicenode.h:25 | two packets that agree from byte 28 on decode alike: no byte of the prefix affects any field |
| `XBridgePacket.BodyIgnoresBodysize` | src/servicenode/servicenode.h:29-32 | the body is every byte after the header, whatever bodysize says; a 141-byte packet has an empty body |
| `XBridgePacket.ShortPacketIsMalformed` | src/servicenode/servicenode.h:24-33 | a 140-byte packet does not decode |
| `XBridgePacket.ParseEncode` | src/servicenode/servicenode.h:24-33 | decoding a packet laid out from fields gives back every header field and the body |
| `XBridgePacket.EncodeParse` | src/servicenode/servicenode.h:24-33 | laying out a decoded packet again, with its own prefix, gives back the packet |
| `ServiceNodes.ServiceNode.constructor` | src/servicenode/servicenode.h:54-62 | a new node has an empty key (so it is null), tier OPEN, no collateral, block 0, the null block hash, an empty signature, pingtime 0 and regtime the time of construction |
| `ServiceNodes.ServiceNode.IsNull` | src/servicenode/servicenode.h:68-70 | a node is null exactly when its key is empty, that is when its serialisation starts with an empty byte vector; the constructor's node is null |
| `ServiceNodes.Equal` | src/servicenode/servicenode.h:64 | two nodes are equal exactly when the first fields of their serialisations, their keys, are equal; equal nodes are both null or both not |
| `ServiceNodes.NotEqual` | src/servicenode/servicenode.h:65 | `!=` holds exactly when `==` does not |
| `ServiceNodes.Less` | src/servicenode/servicenode.h:66 | `<` compares registration times only, so no node precedes itself |
| `ServiceNodes.ServiceNode.Serialize` | src/servicenode/servicenode.h:99-106 | the network stream is six fields in this order: key bytes, tier as uint32, collateral list, block number, block hash, signature bytes; no in-memory field is in it |
| `ServiceNodes.CreateSigHashStream` | src/servicenode/servicenode.h:108-112 | the signing-digest input is five fields in this order: key bytes, tier as uint32, collateral list in given order, block number, block hash |
| `ServiceNodes.CreateSigHash` | src/servicenode/servicenode.h:108-114 | the signing digest is the hash of that five-field stream |
| `ServiceNodes.ServiceNode.SigHashStream` | src/servicenode/servicenode.h:116-118 | a node's signing-digest input is its serialisation without the final signature field |
| `ServiceNodes.ServiceNode.SigHash` | src/servicenode/servicenode.h:116-118 | a node's signing digest is the hash of its serialisation without the signature |
| `ServiceNodes.ServiceNode.HashStream` | src/servicenode/servicenode.h:120-125 | the content-hash input is the serialisation followed by regtime |
| `ServiceNodes.ServiceNode.GetHash` | src/servicenode/servicenode.h:120-125 | the content hash is the hash of the serialisation followed by regtime |
| `ServiceNodes.ServiceNode.UpdatePing` | src/servicenode/servicenode.h:92-94 | sets pingtime to the given time and may change no other field |
| `ServiceNodes.ServiceNode.Unserialize` | src/servicenode/servicenode.h:98-106 | a stream that starts with the six wire fields is read from the front: the node's serialisation followed by the returned rest is the stream; a stream that does not start so is refused, returned whole, and changes nothing; regtime and pingtime are never touched |
| `ServiceNodes.CollateralTotalRemove` | src/servicenode/servicenode.h:155-168 | the total of a set of outpoints is any one outpoint's amount plus the total of the rest, so the walk order does not matter |
| `ServiceNodes.ServiceNode.IsValid` | src/servicenode/servicenode.h:127-186 | the check-by-check validation with early returns accepts exactly when `IsValidSpec` holds: anchor valid, key fully valid, and either OPEN and self-signed, or non-empty collateral all of whose distinct outpoints back the signature, tier SPV and total of the distinct outpoints at least `COLLATERAL_SPV` |
| `ServiceNodeProperties.IdentityIsTheKey` | src/servicenode/servicenode.h:64-65 | `==` holds exactly when the keys are equal, and `!=` is its negation |
| `ServiceNodeProperties.NullNodesAreEqual` | src/servicenode/servicenode.h:64-70 | any two null nodes are equal |
| `ServiceNodeProperties.EqualIsEquivalence` | src/servicenode/servicenode.h:64 | identity is reflexive, symmetric and transitive |
| `ServiceNodeProperties.LessIsRegistrationOrder` | src/servicenode/servicenode.h:66 | `<` holds exactly when regtime is smaller; it is irreflexive, asymmetric and transitive |
| `ServiceNodeProperties.OrderingIgnoresIdentity` | src/servicenode/servicenode.h:64-66 | two nodes with the same key but different regtimes are equal and yet ordered |
| `ServiceNodeProperties.SerializeIsSigHashStreamThenSignature` | src/servicenode/servicenode.h:99-118 | the network serialisation is the signing-digest stream followed by the signature |
| `ServiceNodeProperties.HashStreamIsSigHashStreamThenSignatureAndRegtime` | src/servicenode/servicenode.h:108-125 | the content-hash stream is the signing-digest stream, then the signature, then regtime; that is the serialisation plus regtime |
| `ServiceNodeProperties.SigHashIgnoresSignatureAndTimes` | src/servicenode/servicenode.h:108-118 | nodes agreeing on key, tier, collateral, block and block hash have the same signing digest, whatever their signature, regtime and pingtime |
| `ServiceNodeProperties.SigHashStreamDeterminesCoveredFields` | src/servicenode/servicenode.h:108-118 | changing any of the five covered fields changes the signing-digest input |
| `ServiceNodeProperties.HashStreamDeterminesSignatureAndRegtime` | src/servicenode/servicenode.h:120-125 | the content-hash input determines the signing fields, the signature and regtime |
| `ServiceNodeProperties.SerializeDeterminesWireFields` | src/servicenode/servicenode.h:99-106 | the serialisation determines all six wire fields and carries no in-memory field |
| `ServiceNodeProperties.CreateSigHashDefaults` | src/servicenode/servicenode.h:108-109 | the anchor arguments of `CreateSigHash` default to block 0 and the null hash |
| `ServiceNodeProperties.AnchorCheckedFirst` | src/servicenode/servicenode.h:130-132 | a node whose anchor the chain does not recognise is rejected, whatever its signature or collateral |
| `ServiceNodeProperties.InvalidKeyRejected` | src/servicenode/servicenode.h:134-139 | a node whose key is not fully valid is rejected |
| `ServiceNodeProperties.OpenTierIsSelfSigned` | src/servicenode/servicenode.h:141-148 | past the first two checks, an OPEN node is valid exactly when recovery over the signing digest succeeds and the recovered key's id is the node key's id |
| `ServiceNodeProperties.OpenTierIgnoresTxLookup` | src/servicenode/servicenode.h:141-148 | the verdict on an OPEN node is the same under any transaction lookup |
| `ServiceNodeProperties.UnknownTierRejected` | src/servicenode/servicenode.h:48-51 | a tier other than 0 and 50 is always rejected |
| `ServiceNodeProperties.EmptyCollateralRejected` | src/servicenode/servicenode.h:150-152 | a non-OPEN node without collateral is rejected |
| `ServiceNodeProperties.MissingTransactionRejected` | src/servicenode/servicenode.h:160-162 | one outpoint whose transaction is missing or spent rejects the node, whatever the others hold |
| `ServiceNodeProperties.OutputIndexOutOfRangeRejected` | src/servicenode/servicenode.h:164-165 | one outpoint whose index is not below its transaction's output count rejects the node |
| `ServiceNodeProperties.NonKeyDestinationRejected` | src/servicenode/servicenode.h:170-174 | one outpoint whose script has no destination, or one that is not a single key, rejects the node |
| `ServiceNodeProperties.CollateralRecoveryFailureRejected` | src/servicenode/servicenode.h:175-177 | a non-OPEN node whose signature yields no key is rejected |
| `ServiceNodeProperties.SignerMismatchRejected` | src/servicenode/servicenode.h:178-179 | one outpoint paying a key other than the recovered signer rejects the node |
| `ServiceNodeProperties.ValidCollateralNodeIsFunded` | src/servicenode/servicenode.h:151-185 | a valid non-OPEN node is on the SPV tier, has collateral, every listed outpoint backs the signature, and its distinct outpoints hold at least `COLLATERAL_SPV` |
| `ServiceNodeProperties.DuplicateCountsOnce` | src/servicenode/servicenode.h:155-156 | listing an outpoint again leaves the collateral total unchanged |
| `ServiceNodeProperties.RepeatedOutpointTotal` | src/servicenode/servicenode.h:155-168 | one outpoint listed k >= 1 times contributes its amount exactly once |
| `ServiceNodeProperties.TwoOutpointsSuffice` | src/servicenode/servicenode.h:155-183 | two distinct outpoints that each back the signature and together hold at least `COLLATERAL_SPV` make an SPV node with valid anchor and key valid |
| `Pings.ServiceNodePing.Serialize` | src/servicenode/servicenode.h:210-214 | the heartbeat's stream is two fields, key then signature, and reads back as the heartbeat with nothing left |
| `Pings.DefaultPing` | src/servicenode/servicenode.h:205-206 | the default heartbeat serialises as two empty byte vectors |
| `Pings.ServiceNodePing.GetHash` | src/servicenode/servicenode.h:224-228 | the heartbeat hash is the hash of its serialisation: key, then signature |
| `Pings.Unserialize` | src/servicenode/servicenode.h:210-214 | a heartbeat is read from the front of exactly the streams that start with two byte-vector fields, and what follows them is returned |
| `Pings.UnserializeSerialize` | src/servicenode/servicenode.h:210-214 | reading back a heartbeat's serialisation, whatever follows it, gives the heartbeat and what follows |
| `Pings.SerializeUnserialize` | src/servicenode/servicenode.h:210-214 | a heartbeat read from a stream, serialised and followed by the unread rest, gives the stream |
| `Pings.HashInputDeterminesPing` | src/servicenode/servicenode.h:224-228 | two heartbeats with the same hash input have the same key and signature |

## Left out

- secp256k1 and hashing: `CPubKey::IsFullyValid`, `RecoverCompact`, `GetID`, `ExtractDestination` and `CHashWriter`'s double SHA-256 are not part of this model. They are the fields of `Crypto`, so every property holds for any implementation of them.
- The chain oracles (`getTxFunc`, `isBlockValid`) are fields of `ChainView`. Their implementations are chain state outside this header.
- `GetAdjustedTime()` in the constructor and in `updatePing` is a clock read; the time is a parameter instead.
- The byte encoding of `READWRITE` and `CHashWriter` (compact-size prefixes, vector and outpoint layout) is not part of this model. A stream is a sequence of typed fields, so field order and field choice are modelled but not bytes.
- `XBridgePacket.LegacyXBridgePacket.CopyFrom`: the source does no bounds check, so a packet under 141 bytes is read out of bounds. The model refuses such a packet and leaves the fields unchanged. The source reads the words through a host-endian pointer cast; the model reads them little-endian.
- `XBridgePacket.LegacyXBridgePacket.CopyFrom`: the key is kept as the 33 raw bytes. `CPubKey`'s own check of the length byte (pubkey.h) is not part of this model.
- `ServiceNodes.ServiceNode.Unserialize` checks the kinds of the first six fields before it assigns anything. The source's `READWRITE` assigns field by field and throws at the first bad one or at the end of the stream, leaving the earlier fields changed.
- `ServiceNodes.ServiceNode.IsValid`: at lines 174-178 the source dereferences the result of `boost::get<CKeyID>`, which is null for a destination that is not a key hash (undefined behaviour). The model rejects such a destination.
- `ServiceNodes.ServiceNode.IsValid` walks the distinct outpoints in an arbitrary order, where `std::set` walks them in `COutPoint` order. Every failure returns false and the sum is order-free, so the verdict is the same.
- `ServiceNodes.ServiceNode.IsValid` does not, on a non-OPEN tier, compare the node key with the recovered signer; neither does the source.
- Amounts are unbounded integers. Overflow of the `CAmount` running total is not guarded in the source, and the model claims nothing about it. `COIN` is taken as 100000000; amount.h is not part of this model.
- The getters (`getSnodePubKey`, `getTier`, `getCollateral`, `getSignature`, `getRegTime`, and the ping's two) only read fields. The model reads the fields directly.
- `ServiceNodePtr` and the `sync.h` include have no behaviour here. The default `ServiceNodePing` is `Pings.DefaultPing`.
- test/wallet.py drives running nodes over RPC (mining, sending, balances). It has no logic in scope.
