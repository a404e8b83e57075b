/** Indices into an object map and their randomised encoding: `GenIdx` of
    crates/arti-rpcserver/src/objmap.rs.

    Random words are arguments, and 64-bit arithmetic wraps around explicitly. */
module GenIdx {
  import opened Wrappers
  import opened Bytes
  import opened SlotMap

  const WORD64 := 0x1_0000_0000_0000_0000
  const WORD63 := 0x8000_0000_0000_0000
  const BYTE_LEN := 16

  datatype GenIdx = Weak(key: Key) | Strong(key: Key)

  /** A key as the arenas give them out: both halves are 32-bit words and the version is odd. */
  predicate IsKey(k: Key) {
    k.index < WORD && k.version < WORD && k.version % 2 == 1
  }

  /** `KeyData::as_ffi` and `KeyData::from_ffi` of the slotmap crate: version in the high half, and
      the "full" bit forced when reading. */
  function AsFfi(k: Key): nat {
    k.version * WORD + k.index
  }

  function FromFfi(w: nat): (k: Key)
    ensures k.index < WORD
  {
    var version := w / WORD;
    Key(w % WORD, if version % 2 == 1 then version else version + 1)
  }

  /** `rng.random::<u64>() << 1`: the shift drops the top bit. */
  function Blind(r: nat): (x: nat)
    ensures x % 2 == 0 && x < WORD64 - 1
  {
    2 * (r % WORD63)
  }

  /** The two words of an encoding: the blinding with the weak bit, and the blinded index. */
  function Head(i: GenIdx, r: nat): nat {
    Blind(r) + if i.Weak? then 1 else 0
  }

  function Tail(i: GenIdx, r: nat): nat {
    (AsFfi(i.key) + Blind(r)) % WORD64
  }

  function ToBytes(i: GenIdx, r: nat): (b: Bytes)
    ensures |b| == BYTE_LEN
  {
    BigEndian(Head(i, r), 8) + BigEndian(Tail(i, r), 8)
  }

  /** The word that decoding hands to `from_ffi`, from the two words of an encoding. */
  function Unblind(head: nat, tail: nat): nat {
    (tail - (head - head % 2)) % WORD64
  }

  function RawWord(b: Bytes): nat
    requires |b| == BYTE_LEN
  {
    Unblind(FromBigEndian(b[..8]), FromBigEndian(b[8..]))
  }

  function FromWords(head: nat, tail: nat): GenIdx {
    var key := FromFfi(Unblind(head, tail));
    if head % 2 == 1 then Weak(key) else Strong(key)
  }

  function FromBytes(b: Bytes): Option<GenIdx> {
    if |b| != BYTE_LEN then None
    else Some(FromWords(FromBigEndian(b[..8]), FromBigEndian(b[8..])))
  }

  lemma Pow256Of8()
    ensures Pow256(8) == WORD64
  {
    assert Pow256(4) == WORD;
    assert Pow256(8) == 256 * 256 * 256 * 256 * Pow256(4);
  }

  /** Unblinding undoes blinding, with wrapping arithmetic both ways. */
  lemma UnblindBlind(w: nat, x: nat, bit: nat)
    requires w < WORD64 && x < WORD64 && x % 2 == 0 && bit < 2
    ensures Unblind(x + bit, (w + x) % WORD64) == w
  {
    var tail := (w + x) % WORD64;
    assert tail == if w + x < WORD64 then w + x else w + x - WORD64;
    assert (x + bit) - (x + bit) % 2 == x;
    assert (tail - x) % WORD64 == w;
  }

  lemma BlindUnblind(head: nat, tail: nat)
    requires head < WORD64 && tail < WORD64
    ensures (Unblind(head, tail) + (head - head % 2)) % WORD64 == tail
  {
    var x := head - head % 2;
    assert (tail - x) % WORD64 == if tail >= x then tail - x else tail - x + WORD64;
  }

  lemma FfiRoundTrip(k: Key)
    requires IsKey(k)
    ensures AsFfi(k) < WORD64 && FromFfi(AsFfi(k)) == k
  {
    var w := AsFfi(k);
    assert w / WORD == k.version && w % WORD == k.index;
  }

  lemma FfiReadBack(w: nat)
    ensures AsFfi(FromFfi(w)) == w <==> w / WORD % 2 == 1
    ensures w < WORD64 ==> IsKey(FromFfi(w))
  {
    assert w == w / WORD * WORD + w % WORD;
  }

  /** Two words written one after the other are read back. */
  lemma WordsRoundTrip(head: nat, tail: nat)
    requires head < WORD64 && tail < WORD64
    ensures var b := BigEndian(head, 8) + BigEndian(tail, 8);
            FromBigEndian(b[..8]) == head && FromBigEndian(b[8..]) == tail
  {
    Pow256Of8();
    BigEndianRoundTrip(head, 8);
    BigEndianRoundTrip(tail, 8);
    var b := BigEndian(head, 8) + BigEndian(tail, 8);
    assert b[..8] == BigEndian(head, 8) && b[8..] == BigEndian(tail, 8);
  }

  /** The two halves of an encoding, read back as words. */
  lemma Halves(i: GenIdx, r: nat)
    ensures FromBigEndian(ToBytes(i, r)[..8]) == Head(i, r)
    ensures FromBigEndian(ToBytes(i, r)[8..]) == Tail(i, r)
  {
    WordsRoundTrip(Head(i, r), Tail(i, r));
  }

  lemma RawWordOf(i: GenIdx, r: nat)
    requires AsFfi(i.key) < WORD64
    ensures RawWord(ToBytes(i, r)) == AsFfi(i.key)
  {
    Halves(i, r);
    UnblindBlind(AsFfi(i.key), Blind(r), if i.Weak? then 1 else 0);
  }

  lemma FromWordsRoundTrip(i: GenIdx, r: nat)
    requires IsKey(i.key)
    ensures FromWords(Head(i, r), Tail(i, r)) == i
  {
    FfiRoundTrip(i.key);
    UnblindBlind(AsFfi(i.key), Blind(r), if i.Weak? then 1 else 0);
  }

  /** Decoding gives back the index, whatever the random word was. */
  lemma RoundTrip(i: GenIdx, r: nat)
    requires IsKey(i.key)
    ensures FromBytes(ToBytes(i, r)) == Some(i)
  {
    Halves(i, r);
    FromWordsRoundTrip(i, r);
  }

  /** Decoding fails only on a wrong length, and always gives a key an arena could have given out. */
  lemma DecodesExactly16Bytes(b: Bytes)
    ensures FromBytes(b).Some? <==> |b| == BYTE_LEN
    ensures FromBytes(b).Some? ==> IsKey(FromBytes(b).value.key)
  {
    if |b| == BYTE_LEN {
      FfiReadBack(RawWord(b));
    }
  }

  /** Two draws encode an index the same way exactly when they agree in their low 63 bits. */
  lemma EncodingsDiffer(i: GenIdx, r: nat, r': nat)
    ensures ToBytes(i, r) == ToBytes(i, r') <==> r % WORD63 == r' % WORD63
  {
    if r % WORD63 == r' % WORD63 {
      SameDraw(i, r, r');
    }
    if ToBytes(i, r) == ToBytes(i, r') {
      Halves(i, r);
      Halves(i, r');
      SameHead(i, r, r');
    }
  }

  lemma SameDraw(i: GenIdx, r: nat, r': nat)
    requires r % WORD63 == r' % WORD63
    ensures ToBytes(i, r) == ToBytes(i, r')
  {
    assert Head(i, r) == Head(i, r') && Tail(i, r) == Tail(i, r');
  }

  lemma SameHead(i: GenIdx, r: nat, r': nat)
    requires Head(i, r) == Head(i, r')
    ensures r % WORD63 == r' % WORD63
  {
  }

  /** Which strings of 16 bytes are encodings at all: those whose unblinded word has the "full" bit
      of the version set. */
  lemma IsEncodingIff(b: Bytes)
    requires |b| == BYTE_LEN
    ensures (exists r :: ToBytes(FromBytes(b).value, r) == b) <==> RawWord(b) / WORD % 2 == 1
  {
    var i := FromBytes(b).value;
    FfiReadBack(RawWord(b));
    if RawWord(b) / WORD % 2 == 1 {
      var r := Reencode(b);
    }
    forall r | ToBytes(i, r) == b ensures RawWord(b) / WORD % 2 == 1 {
      FfiRoundTrip(i.key);
      RawWordOf(i, r);
    }
  }

  lemma ReencodeWords(head: nat, tail: nat)
    requires head < WORD64 && tail < WORD64 && Unblind(head, tail) / WORD % 2 == 1
    ensures var i, r := FromWords(head, tail), head / 2;
            Head(i, r) == head && Tail(i, r) == tail
  {
    BlindUnblind(head, tail);
    FfiReadBack(Unblind(head, tail));
    assert Blind(head / 2) == head - head % 2;
  }

  lemma Reencode(b: Bytes) returns (r: nat)
    requires |b| == BYTE_LEN && RawWord(b) / WORD % 2 == 1
    ensures ToBytes(FromBytes(b).value, r) == b
  {
    var head, tail := FromBigEndian(b[..8]), FromBigEndian(b[8..]);
    r := head / 2;
    Pow256Of8();
    ReencodeWords(head, tail);
    FromBigEndianRoundTrip(b[..8]);
    FromBigEndianRoundTrip(b[8..]);
    assert b == b[..8] + b[8..];
  }

  lemma LastByte(b: Bytes)
    requires |b| == 8
    ensures FromBigEndian(b) % 2 == b[7] % 2
  {
  }

  lemma HeadBit(i: GenIdx, r: nat)
    ensures Head(i, r) % 2 == if i.Weak? then 1 else 0
  {
  }

  /** The layout of an encoding: two big-endian words, of which the lowest bit of the first tells a weak
      index from a strong one, and the second is the index plus the other bits of the first. */
  lemma Layout(i: GenIdx, r: nat, x: nat, y: nat)
    requires IsKey(i.key)
    requires x == FromBigEndian(ToBytes(i, r)[..8]) && y == FromBigEndian(ToBytes(i, r)[8..])
    ensures ToBytes(i, r)[7] % 2 == x % 2 == if i.Weak? then 1 else 0
    ensures (y - (x - x % 2)) % 0x1_0000_0000_0000_0000 == i.key.version * 0x1_0000_0000 + i.key.index
  {
    Halves(i, r);
    HeadBit(i, r);
    LastByte(ToBytes(i, r)[..8]);
    WordLayout(i, r);
  }

  lemma WordLayout(i: GenIdx, r: nat)
    requires IsKey(i.key)
    ensures Unblind(Head(i, r), Tail(i, r)) == AsFfi(i.key)
  {
    FfiRoundTrip(i.key);
    UnblindBlind(AsFfi(i.key), Blind(r), if i.Weak? then 1 else 0);
  }
}
