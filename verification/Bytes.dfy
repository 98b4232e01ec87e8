/** Byte strings, 32-byte digests and their lower-case hexadecimal text. */
module Bytes {

  type byte = b: int | 0 <= b < 256
  type bytes = seq<byte>
  type Digest = d: bytes | |d| == 32 witness seq(32, _ => 0)

  /** SHA-256 is any function into 32-byte digests; nothing more is assumed of it. */
  type Hash = bytes -> Digest

  /** A concrete pair of different inputs with one digest. */
  ghost predicate Collision(sha: Hash, a: bytes, b: bytes) {
    a != b && sha(a) == sha(b)
  }

  predicate IsHexDigit(c: char) {
    '0' <= c <= '9' || 'a' <= c <= 'f'
  }

  /** `re.fullmatch(r"[0-9a-f]{64}", text)` */
  predicate IsSha256Hex(text: string) {
    |text| == 64 && forall i :: 0 <= i < |text| ==> IsHexDigit(text[i])
  }

  function DigitValue(c: char): (v: int)
    requires IsHexDigit(c)
    ensures 0 <= v < 16
  {
    if c <= '9' then (c - '0') as int else (c - 'a') as int + 10
  }

  function HexDigit(v: int): (c: char)
    requires 0 <= v < 16
    ensures IsHexDigit(c) && DigitValue(c) == v
  {
    if v < 10 then ('0' as int + v) as char else ('a' as int + v - 10) as char
  }

  function Hex(d: bytes): (h: string)
    ensures |h| == 2 * |d|
    ensures forall i :: 0 <= i < |h| ==> IsHexDigit(h[i])
  {
    if d == [] then ""
    else [HexDigit(d[0] / 16), HexDigit(d[0] % 16)] + Hex(d[1..])
  }

  function FromHex(h: string): (d: bytes)
    requires |h| % 2 == 0 && forall i :: 0 <= i < |h| ==> IsHexDigit(h[i])
    ensures |d| == |h| / 2
  {
    if h == "" then []
    else [DigitValue(h[0]) * 16 + DigitValue(h[1])] + FromHex(h[2..])
  }

  function HexDigest(d: Digest): (h: string)
    ensures IsSha256Hex(h)
  {
    Hex(d)
  }

  lemma {:induction false} FromHexOfHex(d: bytes)
    ensures FromHex(Hex(d)) == d
  {
    if d != [] {
      var a, b := HexDigit(d[0] / 16), HexDigit(d[0] % 16);
      FromHexOfHex(d[1..]);
      assert ([a, b] + Hex(d[1..]))[2..] == Hex(d[1..]);
      assert DigitValue(a) * 16 + DigitValue(b) == d[0];
    }
  }

  lemma HexInjective(a: bytes, b: bytes)
    requires Hex(a) == Hex(b)
    ensures a == b
  {
    FromHexOfHex(a);
    FromHexOfHex(b);
  }

  /** The bytes of an ASCII string. */
  function AsciiBytes(s: string): (b: bytes)
    ensures |b| == |s|
  {
    seq(|s|, i requires 0 <= i < |s| => s[i] as int % 128)
  }

  /** `n.to_bytes(width, "big")`; the caller has checked that `n` fits. */
  function BigEndian(n: nat, width: nat): (r: bytes)
    ensures |r| == width
  {
    if width == 0 then [] else BigEndian(n / 256, width - 1) + [n % 256]
  }
}
