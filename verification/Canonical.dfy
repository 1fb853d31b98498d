/**
 Bytes, content hashes and the hexadecimal names made from them.

 The hash is never defined: every definition that needs it takes a function of type
 `HashFn`, so every theorem holds for every hash function, colliding ones included.
 */
module Canonical {
  import opened Wrappers

  newtype Byte = x: int | 0 <= x < 256

  type Bytes = seq<Byte>

  /** A content hash: 32 bytes. */
  type Digest = b: Bytes | |b| == 32 witness seq(32, _ => 0)

  type HashFn = Bytes -> Digest

  /** The value of one hexadecimal character, in either case. */
  function HexValue(c: char): (v: Option<Byte>)
    ensures v.Some? ==> v.value < 16
  {
    if '0' <= c <= '9' then Some((c as int - '0' as int) as Byte)
    else if 'a' <= c <= 'f' then Some((c as int - 'a' as int + 10) as Byte)
    else if 'A' <= c <= 'F' then Some((c as int - 'A' as int + 10) as Byte)
    else None
  }

  /** Hexadecimal decoding: fails on an odd length and on any other character. */
  function DecodeHex(s: string): Option<Bytes> {
    if s == "" then Some([])
    else if |s| == 1 then None
    else
      match (HexValue(s[0]), HexValue(s[1]), DecodeHex(s[2..]))
      case (Some(hi), Some(lo), Some(rest)) => Some([16 * hi + lo] + rest)
      case _ => None
  }

  /** The identity a record claims, when its text is the hex form of 32 bytes. */
  function ParseDigest(s: string): Option<Digest> {
    match DecodeHex(s)
    case Some(raw) => if |raw| == 32 then Some(raw) else None
    case None => None
  }

  function HexChar(n: Byte): char
    requires n < 16
  {
    "0123456789abcdef"[n]
  }

  /** The lowercase hexadecimal form of `b`. */
  function EncodeHex(b: Bytes): string {
    if b == [] then "" else [HexChar(b[0] / 16), HexChar(b[0] % 16)] + EncodeHex(b[1..])
  }

  /** Decoding undoes encoding, for bytes of every length. */
  lemma {:induction false} HexRoundTrip(b: Bytes)
    ensures |EncodeHex(b)| == 2 * |b|
    ensures DecodeHex(EncodeHex(b)) == Some(b)
  {
    hide HexValue, HexChar;
    if b != [] {
      HexRoundTrip(b[1..]);
      var s := EncodeHex(b);
      assert s[2..] == EncodeHex(b[1..]);
      HexCharValue(b[0] / 16);
      HexCharValue(b[0] % 16);
      assert 16 * (b[0] / 16) + b[0] % 16 == b[0];
      assert b == [b[0]] + b[1..];
    }
  }

  lemma HexCharValue(n: Byte)
    requires n < 16
    ensures HexValue(HexChar(n)) == Some(n)
  {
    assert n == 0 || n == 1 || n == 2 || n == 3 || n == 4 || n == 5 || n == 6 || n == 7
        || n == 8 || n == 9 || n == 10 || n == 11 || n == 12 || n == 13 || n == 14 || n == 15;
  }

  /** The value of each digit, as people write them. */
  lemma DigitValues(c: char)
    ensures '0' <= c <= '9' ==> HexValue(c).Some? && HexValue(c).value as int == c as int - '0' as int
    ensures 'a' <= c <= 'f' ==> HexValue(c).Some? && HexValue(c).value as int == c as int - 'a' as int + 10
    ensures 'A' <= c <= 'F' ==> HexValue(c).Some? && HexValue(c).value as int == c as int - 'A' as int + 10
    ensures HexValue(c).Some? ==> '0' <= c <= '9' || 'a' <= c <= 'f' || 'A' <= c <= 'F'
  {}

  /** Text decodes exactly when it is pairs of digits, each pair the high half of its byte and then the low. */
  lemma {:induction false} DecodesPairs(s: string)
    ensures DecodeHex(s).Some? <==> |s| % 2 == 0 && forall i :: 0 <= i < |s| ==> HexValue(s[i]).Some?
    ensures DecodeHex(s).Some? ==>
      var b := DecodeHex(s).value;
      |s| == 2 * |b| && forall i :: 0 <= i < |b| ==>
        (HexValue(s[2 * i]).Some? && HexValue(s[2 * i + 1]).Some?
         && b[i] as int == 16 * HexValue(s[2 * i]).value as int + HexValue(s[2 * i + 1]).value as int)
  {
    hide HexValue;
    if |s| >= 2 {
      var rest := s[2..];
      DecodesPairs(rest);
      assert forall i :: 2 <= i < |s| ==> s[i] == rest[i - 2];
      assert forall i :: 0 <= i < |rest| ==> rest[i] == s[i + 2];
      if DecodeHex(s).Some? {
        var b, tail := DecodeHex(s).value, DecodeHex(rest).value;
        assert b[1..] == tail;
        forall i | 1 <= i < |b|
          ensures b[i] == tail[i - 1] && s[2 * i] == rest[2 * (i - 1)] && s[2 * i + 1] == rest[2 * (i - 1) + 1]
        {}
      }
    }
  }

  /** Encoding writes lower case. */
  lemma {:induction false} EncodesLowerCase(b: Bytes)
    ensures forall i :: 0 <= i < |EncodeHex(b)| ==>
      '0' <= EncodeHex(b)[i] <= '9' || 'a' <= EncodeHex(b)[i] <= 'f'
  {
    if b != [] {
      EncodesLowerCase(b[1..]);
      LowerCaseDigit(b[0] / 16);
      LowerCaseDigit(b[0] % 16);
    }
  }

  lemma LowerCaseDigit(n: Byte)
    requires n < 16
    ensures '0' <= HexChar(n) <= '9' || 'a' <= HexChar(n) <= 'f'
  {
    assert n == 0 || n == 1 || n == 2 || n == 3 || n == 4 || n == 5 || n == 6 || n == 7
        || n == 8 || n == 9 || n == 10 || n == 11 || n == 12 || n == 13 || n == 14 || n == 15;
  }

  /** Where a digest's blob lives, and what its row calls it: two characters, a slash, the rest. */
  function PayloadRef(h: Digest): string {
    HexRoundTrip(h);
    EncodeHex(h)[..2] + "/" + EncodeHex(h)[2..]
  }

  /** Two digests never share a path, so a store of blobs is a map from digests. */
  lemma PayloadRefIsInjective(g: Digest, h: Digest)
    requires PayloadRef(g) == PayloadRef(h)
    ensures g == h
  {
    HexRoundTrip(g);
    HexRoundTrip(h);
    var p, q := PayloadRef(g), PayloadRef(h);
    assert p[..2] == EncodeHex(g)[..2] && q[..2] == EncodeHex(h)[..2];
    assert p[3..] == EncodeHex(g)[2..] && q[3..] == EncodeHex(h)[2..];
    assert EncodeHex(g) == EncodeHex(g)[..2] + EncodeHex(g)[2..];
    assert EncodeHex(h) == EncodeHex(h)[..2] + EncodeHex(h)[2..];
  }
}
