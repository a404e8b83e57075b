/** Base64 without padding, as the `base64ct` crate decodes it: strictly, so that the unused low
    bits of the last digit must be zero (section 3.5 of RFC 4648). */
module Base64 {
  import opened Wrappers
  import opened Bytes

  /** The alphabets of sections 4 and 5 of RFC 4648. */
  datatype Alphabet = Standard | UrlSafe

  type Sextet = n: int | 0 <= n < 64

  function Digit(a: Alphabet, n: Sextet): char {
    if n < 26 then 'A' + n as char
    else if n < 52 then 'a' + (n - 26) as char
    else if n < 62 then '0' + (n - 52) as char
    else if n == 62 then (if a.Standard? then '+' else '-')
    else (if a.Standard? then '/' else '_')
  }

  function Undigit(a: Alphabet, c: char): Option<Sextet> {
    if 'A' <= c <= 'Z' then Some((c - 'A') as int)
    else if 'a' <= c <= 'z' then Some((c - 'a') as int + 26)
    else if '0' <= c <= '9' then Some((c - '0') as int + 52)
    else if c == Digit(a, 62) then Some(62)
    else if c == Digit(a, 63) then Some(63)
    else None
  }

  /** Bytes as digits, without trailing padding. */
  function Pack(b: Bytes): (d: seq<Sextet>)
    ensures |d| == (8 * |b| + 5) / 6
  {
    match |b|
    case 0 => []
    case 1 => [b[0] / 4, b[0] % 4 * 16]
    case 2 => [b[0] / 4, b[0] % 4 * 16 + b[1] / 16, b[1] % 16 * 4]
    case _ => [b[0] / 4, b[0] % 4 * 16 + b[1] / 16, b[1] % 16 * 4 + b[2] / 64, b[2] % 64] + Pack(b[3..])
  }

  function Join(hi: int, lo: int): Byte
    requires 0 <= hi * 4 + lo < 256
  {
    hi * 4 + lo
  }

  function Unpack(d: seq<Sextet>): Option<Bytes> {
    match |d|
    case 0 => Some([])
    case 1 => None
    case 2 => if d[1] % 16 == 0 then Some([Join(d[0], d[1] / 16)]) else None
    case 3 =>
      if d[2] % 4 == 0 then Some([Join(d[0], d[1] / 16), Join(d[1] % 16 * 4, d[2] / 4)]) else None
    case _ =>
      match Unpack(d[4..])
      case None => None
      case Some(rest) =>
        Some([Join(d[0], d[1] / 16), Join(d[1] % 16 * 4, d[2] / 4), Join(d[2] % 4 * 16, d[3])] + rest)
  }

  function Digits(a: Alphabet, d: seq<Sextet>): (s: string)
    ensures |s| == |d|
  {
    if d == [] then [] else [Digit(a, d[0])] + Digits(a, d[1..])
  }

  /** The digits of a string, if all its characters are digits. */
  function Sextets(a: Alphabet, s: string): (d: Option<seq<Sextet>>)
    ensures d.Some? ==> |d.value| == |s|
  {
    if s == [] then Some([])
    else
      match Undigit(a, s[0])
      case None => None
      case Some(d) =>
        match Sextets(a, s[1..])
        case None => None
        case Some(ds) => Some([d] + ds)
  }

  function Encode(a: Alphabet, b: Bytes): (s: string)
    ensures |s| == (8 * |b| + 5) / 6
  {
    Digits(a, Pack(b))
  }

  function Decode(a: Alphabet, s: string): Option<Bytes> {
    match Sextets(a, s)
    case None => None
    case Some(d) => Unpack(d)
  }

  lemma DigitRoundTrip(a: Alphabet, n: Sextet)
    ensures Undigit(a, Digit(a, n)) == Some(n)
  {
  }

  lemma UndigitRoundTrip(a: Alphabet, c: char)
    requires Undigit(a, c).Some?
    ensures Digit(a, Undigit(a, c).value) == c
  {
  }

  lemma SextetsOfOne(a: Alphabet, n: Sextet, s: string, d: seq<Sextet>)
    requires Sextets(a, s) == Some(d)
    ensures Sextets(a, [Digit(a, n)] + s) == Some([n] + d)
  {
    DigitRoundTrip(a, n);
    assert ([Digit(a, n)] + s)[1..] == s;
  }

  lemma {:induction false} SextetsOfDigits(a: Alphabet, d: seq<Sextet>)
    ensures Sextets(a, Digits(a, d)) == Some(d)
  {
    if d != [] {
      SextetsOfDigits(a, d[1..]);
      SextetsOfOne(a, d[0], Digits(a, d[1..]), d[1..]);
      assert d == [d[0]] + d[1..];
    }
  }

  lemma {:induction false} DigitsOfSextets(a: Alphabet, s: string)
    requires Sextets(a, s).Some?
    ensures Digits(a, Sextets(a, s).value) == s
  {
    if s != [] {
      DigitsOfSextets(a, s[1..]);
      UndigitRoundTrip(a, s[0]);
      assert Sextets(a, s).value[1..] == Sextets(a, s[1..]).value;
    }
  }

  /** The four digits of three bytes join into those bytes again. */
  lemma SplitsJoin(b0: Byte, b1: Byte, b2: Byte)
    ensures (b0 % 4 * 16 + b1 / 16) / 16 == b0 % 4 && (b0 % 4 * 16 + b1 / 16) % 16 == b1 / 16
    ensures (b1 % 16 * 4 + b2 / 64) / 4 == b1 % 16 && (b1 % 16 * 4 + b2 / 64) % 4 == b2 / 64
    ensures b0 / 4 * 4 + b0 % 4 == b0 && b1 / 16 * 4 * 4 + b1 % 16 == b1 && b2 / 64 * 16 * 4 + b2 % 64 == b2
  {
  }

  lemma UnpackFour(b0: Byte, b1: Byte, b2: Byte, d: seq<Sextet>, rest: Bytes)
    requires Unpack(d) == Some(rest)
    ensures Unpack([b0 / 4, b0 % 4 * 16 + b1 / 16, b1 % 16 * 4 + b2 / 64, b2 % 64] + d) == Some([b0, b1, b2] + rest)
  {
    var all: seq<Sextet> := [b0 / 4, b0 % 4 * 16 + b1 / 16, b1 % 16 * 4 + b2 / 64, b2 % 64] + d;
    assert all[4..] == d;
    SplitsJoin(b0, b1, b2);
  }

  lemma {:induction false} UnpackPack(b: Bytes)
    ensures Unpack(Pack(b)) == Some(b)
  {
    match |b|
    case 0 =>
    case 1 => assert Unpack(Pack(b)).value == b;
    case 2 => assert Unpack(Pack(b)).value == b;
    case _ =>
      UnpackPack(b[3..]);
      assert b == [b[0], b[1], b[2]] + b[3..];
      UnpackFour(b[0], b[1], b[2], Pack(b[3..]), b[3..]);
  }

  /** Three bytes joined from four digits split into those digits again. */
  lemma JoinSplits(d0: Sextet, d1: Sextet, d2: Sextet, d3: Sextet)
    ensures var b0, b1, b2 := Join(d0, d1 / 16), Join(d1 % 16 * 4, d2 / 4), Join(d2 % 4 * 16, d3);
            b0 / 4 == d0 && b0 % 4 * 16 + b1 / 16 == d1 && b1 % 16 * 4 + b2 / 64 == d2 && b2 % 64 == d3
  {
  }

  lemma {:induction false} PackUnpack(d: seq<Sextet>)
    requires Unpack(d).Some?
    ensures Pack(Unpack(d).value) == d
  {
    var b := Unpack(d).value;
    match |d|
    case 0 =>
    case 2 =>
      JoinSplits(d[0], d[1], 0, 0);
      assert Pack(b) == [d[0], d[1]] == d;
    case 3 =>
      JoinSplits(d[0], d[1], d[2], 0);
      assert Pack(b) == [d[0], d[1], d[2]] == d;
    case _ =>
      PackUnpack(d[4..]);
      JoinSplits(d[0], d[1], d[2], d[3]);
      assert b[3..] == Unpack(d[4..]).value;
      assert Pack(b) == [d[0], d[1], d[2], d[3]] + Pack(b[3..]);
      assert d == [d[0], d[1], d[2], d[3]] + d[4..];
  }

  /** Decoding accepts exactly the encodings, and gives back what was encoded. */
  lemma DecodeIff(a: Alphabet, s: string, b: Bytes)
    ensures Decode(a, s) == Some(b) <==> s == Encode(a, b)
  {
    if s == Encode(a, b) {
      SextetsOfDigits(a, Pack(b));
      UnpackPack(b);
    }
    if Decode(a, s) == Some(b) {
      DigitsOfSextets(a, s);
      PackUnpack(Sextets(a, s).value);
    }
  }

  /** Tables 1 and 2 of RFC 4648: letters of either case, decimal digits, and two more characters. */
  lemma AlphabetIs(a: Alphabet, n: Sextet)
    ensures Digit(a, 0) == 'A' && Digit(a, 26) == 'a' && Digit(a, 52) == '0'
    ensures n < 61 && n != 25 && n != 51 ==> Digit(a, n + 1) as int == Digit(a, n) as int + 1
    ensures Digit(Standard, 62) == '+' && Digit(Standard, 63) == '/'
    ensures Digit(UrlSafe, 62) == '-' && Digit(UrlSafe, 63) == '_'
  {
  }

  function DigitNumber(d: seq<Sextet>): nat {
    if d == [] then 0
    else
      var before, last: int := DigitNumber(d[..|d| - 1]), d[|d| - 1];
      before * 64 + last
  }

  lemma NumberOfFour(d: seq<Sextet>)
    requires |d| == 4
    ensures DigitNumber(d) == DigitNumber([d[0], d[1], d[2]]) * 64 + d[3]
    ensures DigitNumber([d[0], d[1], d[2]]) == DigitNumber([d[0], d[1]]) * 64 + d[2]
    ensures DigitNumber([d[0], d[1]]) == DigitNumber([d[0]]) * 64 + d[1]
    ensures DigitNumber([d[0]]) == d[0]
  {
    assert d[..3] == [d[0], d[1], d[2]];
    assert [d[0], d[1], d[2]][..2] == [d[0], d[1]];
    assert [d[0], d[1]][..1] == [d[0]];
    assert [d[0]][..0] == [];
  }

  /** Bits are taken from the front: four digits are, as a number, the three bytes that they stand for. */
  lemma GroupIsNumber(x: Byte, y: Byte, z: Byte, rest: Bytes)
    ensures |Pack([x, y, z] + rest)| >= 4
    ensures DigitNumber(Pack([x, y, z] + rest)[..4]) == x as int * 0x1_0000 + y as int * 0x100 + z as int
    ensures Pack([x, y, z] + rest)[4..] == Pack(rest)
  {
    var b := [x, y, z] + rest;
    assert b[3..] == rest;
    NumberOfFour(Pack(b)[..4]);
    assert y as int / 16 * 16 + y as int % 16 == y;
  }

  /** One or two bytes left over are filled up with zero bits. */
  lemma LeftoverIsNumber(x: Byte, y: Byte)
    ensures DigitNumber(Pack([x])) == x as int * 16
    ensures DigitNumber(Pack([x, y])) == x as int * 0x400 + y as int * 4
  {
    NumberOfFour(Pack([x]) + [0, 0]);
    NumberOfFour(Pack([x, y]) + [0]);
    assert y as int / 16 * 16 + y as int % 16 == y;
  }
}
