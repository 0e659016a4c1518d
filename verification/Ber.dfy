/** BER lengths (section 8.1.3 of X.690) and tag-length-value. */
module Ber {

  type byte = x: int | 0 <= x < 256 witness 0

  type bytes = seq<byte>

  datatype Option<+T> = None | Some(value: T)

  datatype Length = Length(value: nat, octets: nat)

  /** The largest Go int, hence the largest length of a byte slice. */
  const MAX_INT: nat := 0x7fff_ffff_ffff_ffff

  const FOUR_OCTETS: nat := 0x1_0000_0000

  /** The octets of n, most significant first, without leading zeros. */
  function BigEndian(n: nat): bytes {
    if n == 0 then [] else BigEndian(n / 256) + [n % 256]
  }

  function Value(s: bytes): nat {
    if s == [] then 0 else Value(s[..|s| - 1]) * 256 + s[|s| - 1]
  }

  /** byte(0x80 | n) */
  function LongForm(n: nat): byte {
    0x80 + n % 0x80
  }

  function LengthOctets(n: nat): bytes {
    if n < 0x80 then [n] else [LongForm(|BigEndian(n)|)] + BigEndian(n)
  }

  function DecodedLength(data: bytes): Option<Length> {
    if data == [] then None
    else if data[0] < 0x80 then Some(Length(data[0], 1))
    else
      var n := data[0] % 0x80;
      if n == 0 || n > 4 || |data| < n + 1 then None else Some(Length(Value(data[1..n + 1]), n + 1))
  }

  method BerEncodeLength(length: nat) returns (r: bytes)
    ensures r == LengthOctets(length)
  {
    if length < 0x80 {
      return [length];
    }
    var lenBytes: bytes := [];
    var l := length;
    while l > 0
      invariant BigEndian(length) == BigEndian(l) + lenBytes
    {
      lenBytes := [l % 256] + lenBytes;
      l := l / 256;
    }
    return [LongForm(|lenBytes|)] + lenBytes;
  }

  method BerDecodeLength(data: bytes) returns (r: Option<Length>)
    ensures r == DecodedLength(data)
  {
    if |data| == 0 {
      return None;
    }
    if data[0] < 0x80 {
      return Some(Length(data[0], 1));
    }
    var numBytes := data[0] % 0x80;
    if numBytes == 0 || numBytes > 4 || |data| < numBytes + 1 {
      return None;
    }
    var length: nat := 0;
    for i := 1 to numBytes + 1
      invariant length == Value(data[1..i])
    {
      assert data[1..i + 1][..i - 1] == data[1..i];
      length := length * 256 + data[i];
    }
    return Some(Length(length, numBytes + 1));
  }

  lemma {:induction false} ValueOfBigEndian(n: nat)
    ensures Value(BigEndian(n)) == n
  {
    if n > 0 {
      ValueOfBigEndian(n / 256);
      assert BigEndian(n)[..|BigEndian(n)| - 1] == BigEndian(n / 256);
    }
  }

  lemma {:induction false} BigEndianIsShortest(s: bytes)
    ensures |BigEndian(Value(s))| <= |s|
  {
    if s != [] {
      BigEndianIsShortest(s[..|s| - 1]);
      var v := Value(s[..|s| - 1]);
      assert Value(s) / 256 == v;
    }
  }

  lemma OctetCount(n: nat)
    requires n <= MAX_INT
    ensures |BigEndian(n)| <= 8
    ensures |BigEndian(n)| <= 4 <==> n < FOUR_OCTETS
    ensures n > 0 ==> |BigEndian(n)| > 0
  {
    var a := n / 256;
    var b := a / 256;
    var c := b / 256;
    var d := c / 256;
    var e := d / 256;
    var f := e / 256;
    var g := f / 256;
    assert BigEndian(g / 256) == [];
    assert |BigEndian(g)| <= 1 && |BigEndian(f)| <= 2 && |BigEndian(e)| <= 3 && |BigEndian(d)| <= 4;
    assert |BigEndian(d)| == 0 <==> d == 0;
    assert |BigEndian(n)| == if n == 0 then 0 else 1 + |BigEndian(a)|;
    assert |BigEndian(a)| == if a == 0 then 0 else 1 + |BigEndian(b)|;
    assert |BigEndian(b)| == if b == 0 then 0 else 1 + |BigEndian(c)|;
    assert |BigEndian(c)| == if c == 0 then 0 else 1 + |BigEndian(d)|;
  }

  lemma LongFormHolds(n: nat)
    requires n < 0x80
    ensures LongForm(n) >= 0x80 && LongForm(n) % 0x80 == n
  {
  }

  lemma LongFormDecodes(s: bytes, rest: bytes)
    requires 0 < |s| <= 8
    ensures DecodedLength([LongForm(|s|)] + s + rest) == if |s| <= 4 then Some(Length(Value(s), |s| + 1)) else None
  {
    hide Value, LongForm;
    var data := [LongForm(|s|)] + s + rest;
    LongFormHolds(|s|);
    assert data[0] == LongForm(|s|) && |data| >= |s| + 1;
    assert data[1..|s| + 1] == s;
  }

  /** Below 2^32 decoding inverts encoding whatever bytes follow; from 2^32 on it fails. */
  lemma LengthRoundTrip(n: nat, rest: bytes)
    requires n <= MAX_INT
    ensures DecodedLength(LengthOctets(n) + rest)
         == if n < FOUR_OCTETS then Some(Length(n, |LengthOctets(n)|)) else None
  {
    if n >= 0x80 {
      OctetCount(n);
      ValueOfBigEndian(n);
      LongFormDecodes(BigEndian(n), rest);
    }
  }

  /** What is no length: nothing, the indefinite form, more than four octets, and fewer octets than announced. */
  lemma DecodeFailsIff(data: bytes)
    ensures DecodedLength(data).None? <==>
      data == [] || data[0] == 0x80 || data[0] > 0x84 || (data[0] > 0x80 && |data| <= data[0] - 0x80)
    ensures DecodedLength(data).Some? ==>
      DecodedLength(data).value.octets == if data[0] < 0x80 then 1 else data[0] - 0x7f
  {
  }

  function Pair(high: nat, low: nat): nat {
    high * 0x100 + low
  }

  /** Any length that is read, also one with leading zeros, is the number its octets say, the first the highest. */
  lemma {:induction false} DecodesOctets(data: bytes)
    requires DecodedLength(data).Some?
    ensures var l := DecodedLength(data).value;
      && (l.octets == 1 ==> l.value == data[0])
      && (l.octets == 2 ==> l.value == data[1])
      && (l.octets == 3 ==> l.value == Pair(data[1], data[2]))
      && (l.octets == 4 ==> l.value == Pair(Pair(data[1], data[2]), data[3]))
      && (l.octets == 5 ==> l.value == Pair(Pair(Pair(data[1], data[2]), data[3]), data[4]))
  {
    if data[0] >= 0x80 {
      var n := data[0] % 0x80;
      assert Value(data[1..1]) == 0;
      forall k | 1 <= k <= n ensures Value(data[1..k + 1]) == Pair(Value(data[1..k]), data[k]) {
        assert data[1..k + 1][..k - 1] == data[1..k];
      }
    }
  }

  /** No encoding of a length is shorter than the encoder's. */
  lemma LengthIsShortest(data: bytes)
    requires DecodedLength(data).Some?
    ensures |LengthOctets(DecodedLength(data).value.value)| <= DecodedLength(data).value.octets
  {
    if data[0] >= 0x80 {
      BigEndianIsShortest(data[1..data[0] % 0x80 + 1]);
    }
  }

  // ---------- tag, length, value ----------

  function Tlv(tag: byte, content: bytes): bytes {
    [tag] + LengthOctets(|content|) + content
  }

  function OctetString(data: bytes): bytes {
    Tlv(0x04, data)
  }

  function Sequence(content: bytes): bytes {
    Tlv(0x30, content)
  }

  method BerEncode(tag: byte, content: bytes) returns (r: bytes)
    ensures r == Tlv(tag, content)
  {
    var length := BerEncodeLength(|content|);
    r := [tag] + length + content;
  }
}
