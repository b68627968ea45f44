/** A service node heartbeat: the node key and a signature, with no timestamp or nonce. */
module Pings {
  import opened Wrappers
  import opened Bytes
  import opened Primitives

  datatype ServiceNodePing = ServiceNodePing(snodePubKey: seq<Byte>, signature: seq<Byte>)
  {
    /** The network serialisation: the key, then the signature; it reads back as this heartbeat. */
    function Serialize(): (r: seq<Field>)
      ensures |r| == 2
      ensures Unserialize(r) == Some((this, []))
    {
      [BytesField(snodePubKey), BytesField(signature)]
    }

    /** The heartbeat's hash covers the same two fields in the same order as its serialisation. */
    function GetHash(crypto: Crypto): (h: Hash256)
      ensures h == crypto.hash(Serialize())
    {
      crypto.hash([BytesField(snodePubKey), BytesField(signature)])
    }
  }

  /** The default heartbeat, with an empty key and an empty signature. */
  function DefaultPing(): (p: ServiceNodePing)
    ensures p.Serialize() == [BytesField([]), BytesField([])]
  {
    ServiceNodePing([], [])
  }

  /**
    Reads a heartbeat from the front of a network stream, returning it with what follows it; a stream
    that does not start with two byte-vector fields gives nothing.
  */
  function Unserialize(stream: seq<Field>): (r: Option<(ServiceNodePing, seq<Field>)>)
    ensures r.Some? <==> |stream| >= 2 && stream[0].BytesField? && stream[1].BytesField?
    ensures r.Some? ==> r.value.1 == stream[2..]
  {
    if |stream| >= 2 && stream[0].BytesField? && stream[1].BytesField? then
      Some((ServiceNodePing(stream[0].bytes, stream[1].bytes), stream[2..]))
    else
      None
  }

  /** Reading back a serialised heartbeat, whatever follows it, gives the heartbeat and what follows. */
  lemma UnserializeSerialize(p: ServiceNodePing, rest: seq<Field>)
    ensures Unserialize(p.Serialize() + rest) == Some((p, rest))
  {
  }

  /** A heartbeat read from a stream serialises back to the front of that stream. */
  lemma SerializeUnserialize(stream: seq<Field>)
    requires Unserialize(stream).Some?
    ensures Unserialize(stream).value.0.Serialize() + Unserialize(stream).value.1 == stream
  {
  }

  /** Heartbeats with the same hash input are the same heartbeat: the hash covers both fields. */
  lemma HashInputDeterminesPing(p: ServiceNodePing, q: ServiceNodePing)
    requires p.Serialize() == q.Serialize()
    ensures p == q
  {
  }
}
