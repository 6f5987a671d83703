/** Content digests and the 41-byte frame header that names one in a pack. */
module Digests {
  import opened Wrappers

  type Byte = b: int | 0 <= b < 256

  const U64_LIMIT: nat := 0x1_0000_0000_0000_0000
  const HASH_BYTES: nat := 32
  const HEADER_BYTES: nat := 41

  datatype Algorithm = Blake3 | Sha256

  /** A digest as it arrives: the algorithm is text until it has been checked. */
  datatype Digest = Digest(algorithm: string, hash: string, size: nat) {

    function Kind(): Option<Algorithm> {
      if algorithm == "blake3" then Some(Blake3)
      else if algorithm == "sha256" then Some(Sha256)
      else None
    }

    predicate Valid() {
      Kind().Some? && |hash| == 2 * HASH_BYTES && LowerHex(hash) && size < U64_LIMIT
    }
  }

  function AlgorithmName(algorithm: Algorithm): string {
    match algorithm
    case Blake3 => "blake3"
    case Sha256 => "sha256"
  }

  // ---------------------------------------------------------------- hexadecimal

  predicate LowerHexChar(c: char) {
    '0' <= c <= '9' || 'a' <= c <= 'f'
  }

  predicate LowerHex(s: string) {
    forall i :: 0 <= i < |s| ==> LowerHexChar(s[i])
  }

  function HexChar(n: int): (c: char)
    requires 0 <= n < 16
    ensures LowerHexChar(c)
  {
    if n < 10 then '0' + n as char else 'a' + (n - 10) as char
  }

  /** Decoding accepts both cases, as the hex crate does. */
  function HexValue(c: char): (v: Option<int>)
    ensures v.Some? ==> 0 <= v.value < 16
    ensures LowerHexChar(c) ==> v.Some? && HexChar(v.value) == c
  {
    if '0' <= c <= '9' then Some(c as int - '0' as int)
    else if 'a' <= c <= 'f' then Some(c as int - 'a' as int + 10)
    else if 'A' <= c <= 'F' then Some(c as int - 'A' as int + 10)
    else None
  }

  function HexEncode(bytes: seq<Byte>): (s: string)
    ensures |s| == 2 * |bytes| && LowerHex(s)
  {
    if bytes == [] then ""
    else [HexChar(bytes[0] / 16), HexChar(bytes[0] % 16)] + HexEncode(bytes[1..])
  }

  function HexDecode(s: string): (r: Option<seq<Byte>>)
    ensures r.Some? ==> 2 * |r.value| == |s|
  {
    if s == "" then Some([])
    else if |s| == 1 then None
    else
      var high, low, rest := HexValue(s[0]), HexValue(s[1]), HexDecode(s[2..]);
      if high.None? || low.None? || rest.None? then None
      else Some([16 * high.value + low.value] + rest.value)
  }

  lemma HexCharValue(n: int)
    requires 0 <= n < 16
    ensures HexValue(HexChar(n)) == Some(n)
  {
  }

  lemma {:induction false} HexRoundTrip(bytes: seq<Byte>)
    ensures HexDecode(HexEncode(bytes)) == Some(bytes)
  {
    hide HexChar, HexValue;
    if bytes != [] {
      HexRoundTrip(bytes[1..]);
      var s := HexEncode(bytes);
      assert s[2..] == HexEncode(bytes[1..]);
      HexCharValue(bytes[0] / 16);
      HexCharValue(bytes[0] % 16);
      assert bytes == [bytes[0]] + bytes[1..];
    }
  }

  lemma {:induction false} HexDecodesLower(s: string)
    requires LowerHex(s) && |s| % 2 == 0
    ensures HexDecode(s).Some? && HexEncode(HexDecode(s).value) == s
  {
    hide HexChar, HexValue;
    if s != "" {
      HexDecodesLower(s[2..]);
      var bytes, high, low := HexDecode(s).value, HexValue(s[0]).value, HexValue(s[1]).value;
      assert bytes[0] / 16 == high && bytes[0] % 16 == low;
      assert bytes[1..] == HexDecode(s[2..]).value;
      assert s == [s[0], s[1]] + s[2..];
    }
  }

  const HEX_DIGITS := "0123456789abcdef"

  /** Two characters a byte, the high half first. */
  lemma {:induction false} HexDigitsOf(bytes: seq<Byte>, i: nat)
    requires i < |bytes|
    ensures HexEncode(bytes)[2 * i] == HEX_DIGITS[bytes[i] / 16]
            && HexEncode(bytes)[2 * i + 1] == HEX_DIGITS[bytes[i] % 16]
  {
    if i == 0 {
      HexDigit(bytes[0] / 16);
      HexDigit(bytes[0] % 16);
    } else {
      hide HexChar;
      HexDigitsOf(bytes[1..], i - 1);
      assert HexEncode(bytes)[2..] == HexEncode(bytes[1..]);
      assert HexEncode(bytes)[2 * i] == HexEncode(bytes)[2..][2 * (i - 1)];
      assert HexEncode(bytes)[2 * i + 1] == HexEncode(bytes)[2..][2 * (i - 1) + 1];
    }
  }

  lemma HexDigit(n: int)
    requires 0 <= n < 16
    ensures HexChar(n) == HEX_DIGITS[n]
  {
    if n < 8 {
      assert n == 0 || n == 1 || n == 2 || n == 3 || n == 4 || n == 5 || n == 6 || n == 7;
    } else {
      assert n == 8 || n == 9 || n == 10 || n == 11 || n == 12 || n == 13 || n == 14 || n == 15;
    }
  }

  // --------------------------------------------------------- big-endian integers

  function Pow256(k: nat): (p: nat)
    ensures p > 0
  {
    if k == 0 then 1 else 256 * Pow256(k - 1)
  }

  function BigEndian(n: nat, k: nat): (bytes: seq<Byte>)
    ensures |bytes| == k
  {
    if k == 0 then [] else BigEndian(n / 256, k - 1) + [n % 256]
  }

  function FromBigEndian(bytes: seq<Byte>): (n: nat)
    ensures n < Pow256(|bytes|)
  {
    if bytes == [] then 0
    else 256 * FromBigEndian(bytes[..|bytes| - 1]) + bytes[|bytes| - 1]
  }

  lemma {:induction false} BigEndianRoundTrip(n: nat, k: nat)
    requires n < Pow256(k)
    ensures FromBigEndian(BigEndian(n, k)) == n
  {
    if k > 0 {
      BigEndianRoundTrip(n / 256, k - 1);
      var bytes := BigEndian(n, k);
      assert bytes[..k - 1] == BigEndian(n / 256, k - 1);
    }
  }

  lemma {:induction false} FromBigEndianRoundTrip(bytes: seq<Byte>)
    ensures BigEndian(FromBigEndian(bytes), |bytes|) == bytes
  {
    if bytes != [] {
      FromBigEndianRoundTrip(bytes[..|bytes| - 1]);
    }
  }

  /** Position: the bytes in front count 256 times more for each byte behind them. */
  lemma {:induction false} FromBigEndianConcat(a: seq<Byte>, b: seq<Byte>)
    ensures FromBigEndian(a + b) == FromBigEndian(a) * Pow256(|b|) + FromBigEndian(b)
  {
    if b == [] {
      assert a + b == a;
    } else {
      var init, last := b[..|b| - 1], b[|b| - 1];
      FromBigEndianConcat(a, init);
      assert (a + b)[..|a + b| - 1] == a + init;
      Scaled(FromBigEndian(a), Pow256(|init|), FromBigEndian(init), last);
    }
  }

  lemma Scaled(a: nat, p: nat, b: nat, last: nat)
    ensures 256 * (a * p + b) + last == a * (256 * p) + (256 * b + last)
  {
  }

  lemma FromBigEndianOne(b: Byte)
    ensures FromBigEndian([b]) == b
  {
    assert [b][..0] == [];
  }

  /** Eight bytes, most significant first. */
  function Positional(b: seq<Byte>): nat
    requires |b| == 8
  {
    0x100_0000_0000_0000 * (b[0] as int) + 0x1_0000_0000_0000 * (b[1] as int) + 0x100_0000_0000 * (b[2] as int) +
        0x1_0000_0000 * (b[3] as int)
    + 0x100_0000 * (b[4] as int) + 0x1_0000 * (b[5] as int) + 0x100 * (b[6] as int) + b[7]
  }

  lemma FromBigEndianTwo(a: seq<Byte>)
    requires |a| == 2
    ensures FromBigEndian(a) == 0x100 * (a[0] as int) + a[1]
  {
    assert a == [a[0]] + [a[1]];
    FromBigEndianOne(a[0]);
    FromBigEndianOne(a[1]);
    FromBigEndianConcat([a[0]], [a[1]]);
  }

  lemma FromBigEndianFour(a: seq<Byte>)
    requires |a| == 4
    ensures FromBigEndian(a) == 0x100_0000 * (a[0] as int) + 0x1_0000 * (a[1] as int) + 0x100 * (a[2] as int) + a[3]
  {
    hide FromBigEndian;
    assert a == a[..2] + a[2..];
    FromBigEndianTwo(a[..2]);
    FromBigEndianTwo(a[2..]);
    FromBigEndianConcat(a[..2], a[2..]);
  }

  lemma FromBigEndianIsPositional(b: seq<Byte>)
    requires |b| == 8
    ensures FromBigEndian(b) == Positional(b)
  {
    hide FromBigEndian;
    assert b == b[..4] + b[4..];
    FromBigEndianFour(b[..4]);
    FromBigEndianFour(b[4..]);
    FromBigEndianConcat(b[..4], b[4..]);
    assert Pow256(4) == 0x1_0000_0000;
  }

  lemma U64Bytes()
    ensures Pow256(8) == U64_LIMIT
  {
    assert Pow256(8) == 256 * 256 * 256 * 256 * Pow256(4);
    assert Pow256(4) == 256 * 256 * 256 * 256 * Pow256(0);
  }

  // --------------------------------------------------------------- frame headers

  datatype HeaderError = UnknownAlgorithm(tag: Byte) | DigestRefused

  function AlgorithmTag(algorithm: Algorithm): Byte {
    match algorithm
    case Blake3 => 1
    case Sha256 => 2
  }

  /** `pack_blob_header`: tag, raw hash, big-endian size. */
  function EncodeHeader(digest: Digest): (r: Result<seq<Byte>, HeaderError>)
    ensures r.Ok? ==> |r.value| == HEADER_BYTES
  {
    var hash := HexDecode(digest.hash);
    if hash.None? || |hash.value| != HASH_BYTES || digest.Kind().None? then Err(DigestRefused)
    else Ok([AlgorithmTag(digest.Kind().value)] + hash.value + BigEndian(digest.size, 8))
  }

  /** The reading half of `parse_header`, before the reader's own size limit. */
  function DecodeHeader(header: seq<Byte>): (r: Result<Digest, HeaderError>)
    requires |header| == HEADER_BYTES
  {
    if header[0] != 1 && header[0] != 2 then Err(UnknownAlgorithm(header[0]))
    else
      var algorithm := if header[0] == 1 then Blake3 else Sha256;
      Ok(Digest(AlgorithmName(algorithm), HexEncode(header[1..33]), FromBigEndian(header[33..])))
  }

  /** Encoding a valid digest never fails, and reading the header back yields it. */
  lemma HeaderRoundTrip(digest: Digest)
    requires digest.Valid()
    ensures EncodeHeader(digest).Ok?
    ensures DecodeHeader(EncodeHeader(digest).value) == Ok(digest)
  {
    HexDecodesLower(digest.hash);
    U64Bytes();
    BigEndianRoundTrip(digest.size, 8);
    var hash := HexDecode(digest.hash).value;
    var header := EncodeHeader(digest).value;
    assert header[1..33] == hash;
    assert header[33..] == BigEndian(digest.size, 8);
  }

  /** Whatever header is accepted names a valid digest, and is that digest's only header. */
  lemma HeaderDecodesValid(header: seq<Byte>)
    requires |header| == HEADER_BYTES
    ensures DecodeHeader(header).Ok? <==> header[0] in {1, 2}
    ensures DecodeHeader(header).Ok? ==>
              && DecodeHeader(header).value.Valid()
              && EncodeHeader(DecodeHeader(header).value) == Ok(header)
  {
    if DecodeHeader(header).Ok? {
      HexRoundTrip(header[1..33]);
      U64Bytes();
      FromBigEndianRoundTrip(header[33..]);
      assert header == [header[0]] + header[1..33] + header[33..];
    }
  }

  /** The wire format, field by field: tag, hash with the high half of each byte first, size
      with the most significant byte first. */
  ghost predicate Laid(digest: Digest, header: seq<Byte>)
    requires |header| == HEADER_BYTES
  {
    && ((header[0] == 1 && digest.algorithm == "blake3") || (header[0] == 2 && digest.algorithm == "sha256"))
    && |digest.hash| == 64
    && (forall i :: 0 <= i < 32 ==> HashByte(digest.hash, header[1..33], i))
    && digest.size == Positional(header[33..])
  }

  predicate HashByte(hash: string, raw: seq<Byte>, i: nat)
    requires i < |raw| && 2 * i + 1 < |hash|
  {
    hash[2 * i] == HEX_DIGITS[raw[i] / 16] && hash[2 * i + 1] == HEX_DIGITS[raw[i] % 16]
  }

  lemma DecodedIsLaid(header: seq<Byte>)
    requires |header| == HEADER_BYTES && DecodeHeader(header).Ok?
    ensures Laid(DecodeHeader(header).value, header)
  {
    hide HexEncode, FromBigEndian;
    var digest, hash := DecodeHeader(header).value, header[1..33];
    FromBigEndianIsPositional(header[33..]);
    forall i | 0 <= i < 32
      ensures HashByte(digest.hash, hash, i)
    {
      HexDigitsOf(hash, i);
    }
  }

  lemma LaidIsUnique(a: Digest, b: Digest, header: seq<Byte>)
    requires |header| == HEADER_BYTES && Laid(a, header) && Laid(b, header)
    ensures a == b
  {
    forall k | 0 <= k < 64
      ensures a.hash[k] == b.hash[k]
    {
      var i := k / 2;
      assert HashByte(a.hash, header[1..33], i) && HashByte(b.hash, header[1..33], i);
      assert k == 2 * i || k == 2 * i + 1;
    }
    assert a.hash == b.hash;
  }

  /** Reading and writing headers follow the wire format exactly. */
  lemma HeaderLayout(digest: Digest, header: seq<Byte>)
    requires |header| == HEADER_BYTES
    ensures DecodeHeader(header) == Ok(digest) <==> Laid(digest, header)
    ensures digest.Valid() ==> (EncodeHeader(digest) == Ok(header) <==> Laid(digest, header))
  {
    hide DecodeHeader, EncodeHeader, Laid;
    HeaderDecodesValid(header);
    if DecodeHeader(header).Ok? {
      DecodedIsLaid(header);
    }
    if Laid(digest, header) {
      LaidHasTag(digest, header);
      LaidIsUnique(digest, DecodeHeader(header).value, header);
    }
    if digest.Valid() {
      HeaderRoundTrip(digest);
    }
  }

  lemma LaidHasTag(digest: Digest, header: seq<Byte>)
    requires |header| == HEADER_BYTES && Laid(digest, header)
    ensures header[0] in {1, 2}
  {
  }

  // ---------------------------------------------------------------- lists of digests

  /** The digests that satisfy `wanted`, in order and with repetitions. */
  function Keep(digests: seq<Digest>, wanted: Digest -> bool): seq<Digest> {
    if digests == [] then []
    else
      var before, last := Keep(digests[..|digests| - 1], wanted), digests[|digests| - 1];
      if wanted(last) then before + [last] else before
  }

  lemma {:induction false} KeepMembers(digests: seq<Digest>, wanted: Digest -> bool)
    ensures forall d :: d in Keep(digests, wanted) <==> d in digests && wanted(d)
  {
    if digests != [] {
      KeepMembers(digests[..|digests| - 1], wanted);
      assert digests == digests[..|digests| - 1] + [digests[|digests| - 1]];
    }
  }

  lemma KeepSnoc(digests: seq<Digest>, d: Digest, wanted: Digest -> bool)
    ensures Keep(digests + [d], wanted) == Keep(digests, wanted) + if wanted(d) then [d] else []
  {
    assert (digests + [d])[..|digests|] == digests;
    assert Keep(digests, wanted) + [] == Keep(digests, wanted);
  }

  lemma KeepOne(d: Digest, wanted: Digest -> bool)
    ensures Keep([d], wanted) == if wanted(d) then [d] else []
  {
    KeepSnoc([], d, wanted);
    assert [] + [d] == [d];
  }

  /** Filtering twice is filtering by both conditions. */
  lemma {:induction false} KeepTwice(digests: seq<Digest>, p: Digest -> bool, q: Digest -> bool, both: Digest -> bool)
    requires forall i :: 0 <= i < |digests| ==> (both(digests[i]) <==> p(digests[i]) && q(digests[i]))
    ensures Keep(Keep(digests, p), q) == Keep(digests, both)
  {
    if digests != [] {
      var init, last := digests[..|digests| - 1], digests[|digests| - 1];
      KeepTwice(init, p, q, both);
      if p(last) {
        KeepSnoc(Keep(init, p), last, q);
      }
    }
  }
}
