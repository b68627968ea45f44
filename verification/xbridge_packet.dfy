/**
  The legacy XBridge packet: a fixed-layout header followed by an opaque body.

    offset  size  field
         0    20  packet address (ignored)
        20     8  packet timestamp (ignored)
        28     4  version
        32     4  command
        36     4  timestamp
        40     4  bodysize (informational; never used for bounds)
        44    33  compressed public key
        77    64  signature
       141     N  body: every remaining byte
*/
module XBridgePacket {
  import opened Wrappers
  import opened Bytes

  const IGNORED_PREFIX_SIZE: nat := 20 + 8
  const U32_SIZE: nat := 4
  const COMPRESSED_PUBLIC_KEY_SIZE: nat := 33
  const SIGNATURE_SIZE: nat := 64

  // Field offsets, each following the previous field.
  const VERSION_OFFSET: nat := IGNORED_PREFIX_SIZE
  const COMMAND_OFFSET: nat := VERSION_OFFSET + U32_SIZE
  const TIMESTAMP_OFFSET: nat := COMMAND_OFFSET + U32_SIZE
  const BODYSIZE_OFFSET: nat := TIMESTAMP_OFFSET + U32_SIZE
  const PUBKEY_OFFSET: nat := BODYSIZE_OFFSET + U32_SIZE
  const SIGNATURE_OFFSET: nat := PUBKEY_OFFSET + COMPRESSED_PUBLIC_KEY_SIZE
  const HEADER_SIZE: nat := SIGNATURE_OFFSET + SIGNATURE_SIZE

  datatype DecodeError = MalformedPacket

  /** The fields a packet decodes to. */
  datatype PacketFields = PacketFields(
    version: U32,
    command: U32,
    timestamp: U32,
    bodysize: U32,
    pubkey: seq<Byte>,
    signature: seq<Byte>,
    body: seq<Byte>)

  /** Decoding of a whole packet, by the layout above; a packet too short for the header is malformed. */
  function Parse(packet: seq<Byte>): (r: Result<PacketFields, DecodeError>)
    ensures r.Failure? <==> |packet| < HEADER_SIZE
    ensures r.Success? ==>
      && |r.value.pubkey| == COMPRESSED_PUBLIC_KEY_SIZE
      && |r.value.signature| == SIGNATURE_SIZE
      && |r.value.body| == |packet| - HEADER_SIZE
  {
    if |packet| < HEADER_SIZE then Failure(MalformedPacket)
    else
      Success(PacketFields(
        DecodeU32(packet[VERSION_OFFSET..COMMAND_OFFSET]),
        DecodeU32(packet[COMMAND_OFFSET..TIMESTAMP_OFFSET]),
        DecodeU32(packet[TIMESTAMP_OFFSET..BODYSIZE_OFFSET]),
        DecodeU32(packet[BODYSIZE_OFFSET..PUBKEY_OFFSET]),
        packet[PUBKEY_OFFSET..SIGNATURE_OFFSET],
        packet[SIGNATURE_OFFSET..HEADER_SIZE],
        packet[HEADER_SIZE..]))
  }

  /** Lays a packet out; `prefix` holds the 28 ignored address and timestamp bytes. */
  function Encode(prefix: seq<Byte>, f: PacketFields): (r: seq<Byte>)
    requires |prefix| == IGNORED_PREFIX_SIZE
    requires |f.pubkey| == COMPRESSED_PUBLIC_KEY_SIZE && |f.signature| == SIGNATURE_SIZE
    ensures |r| == HEADER_SIZE + |f.body|
  {
    prefix + EncodeU32(f.version) + EncodeU32(f.command) + EncodeU32(f.timestamp) + EncodeU32(f.bodysize)
    + f.pubkey + f.signature + f.body
  }

  /** The in-memory packet that CopyFrom fills in. */
  class LegacyXBridgePacket {
    var version: U32
    var command: U32
    var timestamp: U32
    var bodysize: U32
    var pubkey: seq<Byte>
    var signature: seq<Byte>
    var body: seq<Byte>

    /** A packet before CopyFrom: no key, signature or body; the integer fields hold no particular value. */
    constructor ()
      ensures pubkey == [] && signature == [] && body == []
    {
      pubkey, signature, body := [], [], [];
    }

    function Fields(): (f: PacketFields)
      reads this
    {
      PacketFields(version, command, timestamp, bodysize, pubkey, signature, body)
    }

    /**
      Reads the header fields at an advancing offset and takes every byte after the header as the body.
      A packet shorter than the header is refused and leaves the fields as they were.
    */
    method CopyFrom(packet: seq<Byte>) returns (ok: bool)
      modifies this
      ensures ok <==> |packet| >= HEADER_SIZE
      ensures ok ==> Parse(packet) == Success(Fields())
      ensures !ok ==> Parse(packet) == Failure(MalformedPacket) && Fields() == old(Fields())
    {
      if |packet| < HEADER_SIZE {
        return false;
      }
      var offset := IGNORED_PREFIX_SIZE;
      version := DecodeU32(packet[offset..offset + U32_SIZE]);
      offset := offset + U32_SIZE;
      command := DecodeU32(packet[offset..offset + U32_SIZE]);
      offset := offset + U32_SIZE;
      timestamp := DecodeU32(packet[offset..offset + U32_SIZE]);
      offset := offset + U32_SIZE;
      bodysize := DecodeU32(packet[offset..offset + U32_SIZE]);
      offset := offset + U32_SIZE;
      pubkey := packet[offset..offset + COMPRESSED_PUBLIC_KEY_SIZE];
      offset := offset + COMPRESSED_PUBLIC_KEY_SIZE;
      signature := packet[offset..offset + SIGNATURE_SIZE];
      offset := offset + SIGNATURE_SIZE;
      body := packet[offset..];
      return true;
    }
  }

  /** Each field comes from its fixed offset. */
  lemma ParseOffsets(packet: seq<Byte>)
    requires |packet| >= HEADER_SIZE
    ensures Parse(packet).Success?
    ensures var f := Parse(packet).value;
      && f.version == FromLE(packet[28..32])
      && f.command == FromLE(packet[32..36])
      && f.timestamp == FromLE(packet[36..40])
      && f.bodysize == FromLE(packet[40..44])
      && f.pubkey == packet[44..77]
      && f.signature == packet[77..141]
      && f.body == packet[141..]
  {
  }

  /** No byte before offset 28 affects any decoded field. */
  lemma ParseIgnoresPrefix(p: seq<Byte>, q: seq<Byte>)
    requires |p| == |q|
    requires forall i :: IGNORED_PREFIX_SIZE <= i < |p| ==> p[i] == q[i]
    ensures Parse(p) == Parse(q)
  {
    if |p| >= HEADER_SIZE {
      assert p[28..32] == q[28..32];
      assert p[32..36] == q[32..36];
      assert p[36..40] == q[36..40];
      assert p[40..44] == q[40..44];
      assert p[44..77] == q[44..77];
      assert p[77..141] == q[77..141];
      assert p[141..] == q[141..];
    }
  }

  /** The body is every byte after the header, whatever the bodysize field says; a bare header has an empty body. */
  lemma BodyIgnoresBodysize(packet: seq<Byte>)
    requires |packet| >= HEADER_SIZE
    ensures Parse(packet).value.body == packet[HEADER_SIZE..]
    ensures |packet| == HEADER_SIZE ==> Parse(packet).value.body == []
  {
  }

  /** One byte short of the header is malformed. */
  lemma ShortPacketIsMalformed(packet: seq<Byte>)
    requires |packet| == HEADER_SIZE - 1
    ensures Parse(packet) == Failure(MalformedPacket)
  {
  }

  /** Decoding a laid-out packet gives back every field and the body. */
  lemma {:induction false} ParseEncode(prefix: seq<Byte>, f: PacketFields)
    requires |prefix| == IGNORED_PREFIX_SIZE
    requires |f.pubkey| == COMPRESSED_PUBLIC_KEY_SIZE && |f.signature| == SIGNATURE_SIZE
    ensures Parse(Encode(prefix, f)) == Success(f)
  {
    var p := Encode(prefix, f);
    assert p[28..32] == EncodeU32(f.version);
    assert p[32..36] == EncodeU32(f.command);
    assert p[36..40] == EncodeU32(f.timestamp);
    assert p[40..44] == EncodeU32(f.bodysize);
    assert p[44..77] == f.pubkey;
    assert p[77..141] == f.signature;
    assert p[141..] == f.body;
    U32RoundTrip(f.version);
    U32RoundTrip(f.command);
    U32RoundTrip(f.timestamp);
    U32RoundTrip(f.bodysize);
  }

  /** Laying out a decoded packet with its own ignored prefix gives back the packet. */
  lemma {:induction false} EncodeParse(packet: seq<Byte>)
    requires |packet| >= HEADER_SIZE
    ensures Encode(packet[..IGNORED_PREFIX_SIZE], Parse(packet).value) == packet
  {
    U32BytesRoundTrip(packet[28..32]);
    U32BytesRoundTrip(packet[32..36]);
    U32BytesRoundTrip(packet[36..40]);
    U32BytesRoundTrip(packet[40..44]);
    var f := Parse(packet).value;
    calc {
      Encode(packet[..28], f);
      packet[..28] + packet[28..32] + packet[32..36] + packet[36..40] + packet[40..44]
        + packet[44..77] + packet[77..141] + packet[141..];
      { assert packet[..28] + packet[28..32] == packet[..32]; }
      packet[..32] + packet[32..36] + packet[36..40] + packet[40..44] + packet[44..77] + packet[77..141] + packet[141..];
      { assert packet[..32] + packet[32..36] == packet[..36]; }
      packet[..36] + packet[36..40] + packet[40..44] + packet[44..77] + packet[77..141] + packet[141..];
      { assert packet[..36] + packet[36..40] == packet[..40]; }
      packet[..40] + packet[40..44] + packet[44..77] + packet[77..141] + packet[141..];
      { assert packet[..40] + packet[40..44] == packet[..44]; }
      packet[..44] + packet[44..77] + packet[77..141] + packet[141..];
      { assert packet[..44] + packet[44..77] == packet[..77]; }
      packet[..77] + packet[77..141] + packet[141..];
      { assert packet[..77] + packet[77..141] == packet[..141]; }
      packet[..141] + packet[141..];
      packet;
    }
  }
}
