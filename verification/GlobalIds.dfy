/** Manager-global object identifiers: crates/arti-rpcserver/src/globalid.rs.

    A MAC key is modelled by the function it computes, about which nothing is assumed. */
module GlobalIds {
  import opened Wrappers
  import opened Bytes
  import opened GenIdx
  import Index = GenIdx
  import Base64

  const MAC_LEN := 16
  const CONNECTION_ID_LEN := 16
  const ENCODED_LEN := MAC_LEN + CONNECTION_ID_LEN + BYTE_LEN
  const B64_ENCODED_LEN := (ENCODED_LEN * 8 + 5) / 6

  type Mac = b: Bytes | |b| == MAC_LEN witness seq(MAC_LEN, _ => 0)

  type ConnectionId = b: Bytes | |b| == CONNECTION_ID_LEN witness seq(CONNECTION_ID_LEN, _ => 0)

  type MacKey = Bytes -> Mac

  datatype GlobalId = GlobalId(connection: ConnectionId, localId: GenIdx)

  /** The authenticated part of an encoding. */
  function Text(g: GlobalId, r: nat): (b: Bytes)
    ensures |b| == ENCODED_LEN - MAC_LEN
  {
    g.connection + ToBytes(g.localId, r)
  }

  function EncodedBytes(g: GlobalId, key: MacKey, r: nat): (b: Bytes)
    ensures |b| == ENCODED_LEN
  {
    key(Text(g, r)) + Text(g, r)
  }

  /** The encoder, which reserves room for the MAC and fills it in last. */
  method EncodeAsBytes(g: GlobalId, key: MacKey, r: nat) returns (bytes: Bytes)
    ensures bytes == EncodedBytes(g, key, r)
  {
    bytes := seq(MAC_LEN, _ => 0);
    bytes := bytes + g.connection;
    bytes := bytes + ToBytes(g.localId, r);
    var text := bytes[MAC_LEN..];
    assert text == Text(g, r);
    bytes := key(text) + text;
  }

  function TryDecodeFromBytes(key: MacKey, b: Bytes): Option<GlobalId> {
    if |b| != ENCODED_LEN then None
    else if b[..MAC_LEN] != key(b[MAC_LEN..]) then None
    else match FromBytes(b[MAC_LEN + CONNECTION_ID_LEN..])
      case None => None
      case Some(localId) => Some(GlobalId(b[MAC_LEN..MAC_LEN + CONNECTION_ID_LEN], localId))
  }

  function Encode(g: GlobalId, key: MacKey, r: nat): (s: string)
    ensures |s| == B64_ENCODED_LEN
  {
    Base64.Encode(Base64.Standard, EncodedBytes(g, key, r))
  }

  /** Decoding into a buffer of ENCODED_LEN bytes: a string that stands for more bytes is refused. */
  function TryDecode(key: MacKey, s: string): Option<GlobalId> {
    if |s| * 3 / 4 > ENCODED_LEN then None
    else match Base64.Decode(Base64.Standard, s)
      case None => None
      case Some(b) => TryDecodeFromBytes(key, b)
  }

  /** Global ids round trip for every key, connection, index and random word. */
  lemma RoundTrip(g: GlobalId, key: MacKey, r: nat)
    requires IsKey(g.localId.key)
    ensures TryDecode(key, Encode(g, key, r)) == Some(g)
  {
    var b := EncodedBytes(g, key, r);
    Base64.DecodeIff(Base64.Standard, Encode(g, key, r), b);
    assert b[MAC_LEN..] == Text(g, r) && b[..MAC_LEN] == key(Text(g, r));
    assert b[MAC_LEN..MAC_LEN + CONNECTION_ID_LEN] == g.connection;
    assert b[MAC_LEN + CONNECTION_ID_LEN..] == ToBytes(g.localId, r);
    Index.RoundTrip(g.localId, r);
  }

  /** A string decodes exactly when it is the Base64 of 48 bytes that start with the MAC of the other
      32; its connection and index are then read from those. */
  lemma DecodesOnlyAuthentic(key: MacKey, s: string)
    ensures TryDecode(key, s).Some? <==>
              exists b: Bytes ::
                && |b| == ENCODED_LEN && b[..MAC_LEN] == key(b[MAC_LEN..])
                && s == Base64.Encode(Base64.Standard, b)
    ensures TryDecode(key, s).Some? ==> IsKey(TryDecode(key, s).value.localId.key)
  {
    forall b: Bytes | |b| == ENCODED_LEN && b[..MAC_LEN] == key(b[MAC_LEN..])
      && s == Base64.Encode(Base64.Standard, b)
      ensures TryDecode(key, s).Some?
    {
      Base64.DecodeIff(Base64.Standard, s, b);
      DecodesExactly16Bytes(b[MAC_LEN + CONNECTION_ID_LEN..]);
    }
    if TryDecode(key, s).Some? {
      var b := Base64.Decode(Base64.Standard, s).value;
      Base64.DecodeIff(Base64.Standard, s, b);
      DecodesExactly16Bytes(b[MAC_LEN + CONNECTION_ID_LEN..]);
    }
  }

  /** The layout of a global id: 16 bytes of MAC, 16 of the connection, 16 of the index, and the MAC is
      that of the other two. */
  lemma Layout(g: GlobalId, key: MacKey, r: nat)
    ensures var b := EncodedBytes(g, key, r);
            |b| == 48 && b[..16] == key(b[16..]) && b[16..32] == g.connection && b[32..] == ToBytes(g.localId, r)
  {
    var b := EncodedBytes(g, key, r);
    assert b[16..] == Text(g, r);
  }
}
