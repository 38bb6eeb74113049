/** Hexadecimal (RFC 4648 section 8) and unpadded base64url (RFC 4648 section 5), as Go's encoders write them. */
module Encoding {
  import opened Common
  import opened Text

  type byte = b: int | 0 <= b < 256
  type Bytes = seq<byte>

  /** A SHA-256 sum. */
  type Sum = s: Bytes | |s| == 32 witness seq(32, _ => 0)

  // ---------------------------------------------------------------- hex

  function HexDigit(v: int): char
    requires 0 <= v < 16
  {
    if v < 10 then '0' + v as char else 'a' + (v - 10) as char
  }

  function HexValue(c: char): (r: Option<int>)
    ensures r.Some? ==> 0 <= r.value < 16
  {
    if '0' <= c <= '9' then Some(c as int - '0' as int)
    else if 'a' <= c <= 'f' then Some(c as int - 'a' as int + 10)
    else if 'A' <= c <= 'F' then Some(c as int - 'A' as int + 10)
    else None
  }

  /** hex.EncodeToString. */
  function HexEncode(bytes: Bytes): (s: string)
    ensures |s| == 2 * |bytes|
  {
    if bytes == [] then ""
    else [HexDigit(bytes[0] / 16), HexDigit(bytes[0] % 16)] + HexEncode(bytes[1..])
  }

  /** hex.DecodeString: either letter case, odd lengths refused. */
  function HexDecode(s: string): (r: Option<Bytes>)
    ensures r.Some? ==> |s| == 2 * |r.value|
  {
    if s == "" then Some([])
    else if |s| == 1 then None
    else
      match (HexValue(s[0]), HexValue(s[1]), HexDecode(s[2..]))
      case (Some(hi), Some(lo), Some(rest)) => Some([16 * hi + lo] + rest)
      case _ => None
  }

  lemma HexDigitValue(v: int)
    requires 0 <= v < 16
    ensures HexValue(HexDigit(v)) == Some(v)
  {
  }

  lemma {:induction false} HexRoundTrip(bytes: Bytes)
    ensures HexDecode(HexEncode(bytes)) == Some(bytes)
  {
    if bytes != [] {
      HexRoundTrip(bytes[1..]);
      HexDigitValue(bytes[0] / 16);
      HexDigitValue(bytes[0] % 16);
      var s := HexEncode(bytes);
      assert s[2..] == HexEncode(bytes[1..]);
      assert s[0] == HexDigit(bytes[0] / 16) && s[1] == HexDigit(bytes[0] % 16);
      assert bytes == [bytes[0]] + bytes[1..];
    }
  }

  /** Byte by byte: two digits of the lower-case alphabet, the higher half first. */
  lemma {:induction false} HexText(bytes: Bytes, i: nat)
    requires i < |bytes|
    ensures HexEncode(bytes)[2 * i] == "0123456789abcdef"[bytes[i] / 16]
    ensures HexEncode(bytes)[2 * i + 1] == "0123456789abcdef"[bytes[i] % 16]
  {
    if i == 0 {
      HexDigitText(bytes[0] / 16);
      HexDigitText(bytes[0] % 16);
    } else {
      HexText(bytes[1..], i - 1);
      assert HexEncode(bytes)[2..] == HexEncode(bytes[1..]);
    }
  }

  lemma HexDigitText(v: int)
    requires 0 <= v < 16
    ensures HexDigit(v) == "0123456789abcdef"[v]
  {
  }

  predicate HexLetter(c: char) {
    '0' <= c <= '9' || 'a' <= c <= 'f' || 'A' <= c <= 'F'
  }

  /** A text decodes if and only if it consists of pairs of hex digits, in either letter case. */
  lemma {:induction false} HexDecodesIff(s: string)
    ensures HexDecode(s).Some? <==> |s| % 2 == 0 && forall i | 0 <= i < |s| :: HexLetter(s[i])
    decreases |s|
  {
    if |s| >= 2 {
      HexDecodesIff(s[2..]);
      assert s == [s[0], s[1]] + s[2..];
    }
  }

  /** A printed digest contains no separator and no whitespace. */
  lemma {:induction false} HexAlphabet(bytes: Bytes, i: nat)
    requires i < |HexEncode(bytes)|
    ensures !IsSpace(HexEncode(bytes)[i]) && HexEncode(bytes)[i] != ',' && HexEncode(bytes)[i] != ':'
  {
    if i >= 2 {
      HexAlphabet(bytes[1..], i - 2);
    }
  }

  // ---------------------------------------------------------------- base64url, no padding

  type sextet = v: int | 0 <= v < 64

  /** A-Z, a-z, 0-9, '-', '_'. */
  function LetterOf(v: sextet): char {
    if v < 26 then 'A' + v as char
    else if v < 52 then 'a' + (v - 26) as char
    else if v < 62 then '0' + (v - 52) as char
    else if v == 62 then '-' else '_'
  }

  function Sextets(bytes: Bytes): (v: seq<sextet>)
    ensures bytes != [] ==> v != []
  {
    if bytes == [] then []
    else if |bytes| == 1 then [bytes[0] / 4, bytes[0] % 4 * 16]
    else if |bytes| == 2 then [bytes[0] / 4, bytes[0] % 4 * 16 + bytes[1] / 16, bytes[1] % 16 * 4]
    else [bytes[0] / 4, bytes[0] % 4 * 16 + bytes[1] / 16, bytes[1] % 16 * 4 + bytes[2] / 64, bytes[2] % 64]
         + Sextets(bytes[3..])
  }

  function FirstByte(a: int, b: int): byte
    requires 0 <= a < 64 && 0 <= b < 64
  {
    a * 4 + b / 16
  }

  function SecondByte(b: int, c: int): byte
    requires 0 <= b < 64 && 0 <= c < 64
  {
    b % 16 * 16 + c / 4
  }

  function ThirdByte(c: int, d: int): byte
    requires 0 <= c < 64 && 0 <= d < 64
  {
    c % 4 * 64 + d
  }

  /** The inverse of Sextets on its range. */
  function FromSextets(v: seq<sextet>): Bytes {
    if |v| < 2 then []
    else if |v| == 2 then [FirstByte(v[0], v[1])]
    else if |v| == 3 then [FirstByte(v[0], v[1]), SecondByte(v[1], v[2])]
    else [FirstByte(v[0], v[1]), SecondByte(v[1], v[2]), ThirdByte(v[2], v[3])] + FromSextets(v[4..])
  }

  function Letters(v: seq<sextet>): (s: string)
    ensures |s| == |v|
    ensures forall i | 0 <= i < |v| :: s[i] == LetterOf(v[i])
  {
    seq(|v|, i requires 0 <= i < |v| => LetterOf(v[i]))
  }

  /** base64.RawURLEncoding.EncodeToString. */
  function UrlEncode(bytes: Bytes): string {
    Letters(Sextets(bytes))
  }

  /** The byte at a position, zero beyond the end. */
  function ByteAt(bytes: Bytes, i: nat): byte {
    if i < |bytes| then bytes[i] else 0
  }

  /** Section 4 of RFC 4648: three bytes as one number of 24 bits, cut into four groups of six. */
  function Group(bytes: Bytes, q: nat): nat {
    ByteAt(bytes, 3 * q) * 0x10000 + ByteAt(bytes, 3 * q + 1) * 0x100 + ByteAt(bytes, 3 * q + 2)
  }

  function SextetAt(bytes: Bytes, j: nat): sextet {
    var g := Group(bytes, j / 4);
    if j % 4 == 0 then g / 0x40000 % 64
    else if j % 4 == 1 then g / 0x1000 % 64
    else if j % 4 == 2 then g / 64 % 64
    else g % 64
  }

  lemma GroupSplits(a: byte, b: byte, c: byte)
    ensures var g := a * 0x10000 + b * 0x100 + c;
      && g / 0x40000 % 64 == a / 4 && g / 0x1000 % 64 == a % 4 * 16 + b / 16
      && g / 64 % 64 == b % 16 * 4 + c / 64 && g % 64 == c % 64
  {
    var x, y, z, w := a / 4, a % 4 * 16 + b / 16, b % 16 * 4 + c / 64, c % 64;
    assert a == a / 4 * 4 + a % 4 && b == b / 16 * 16 + b % 16 && c == c / 64 * 64 + c % 64;
    FourSextets(x, y, z, w, a * 0x10000 + b * 0x100 + c);
  }

  lemma FourSextets(x: sextet, y: sextet, z: sextet, w: sextet, g: nat)
    requires g == x * 0x40000 + y * 0x1000 + z * 64 + w
    ensures g / 0x40000 % 64 == x && g / 0x1000 % 64 == y && g / 64 % 64 == z && g % 64 == w
  {
    assert g / 64 == x * 0x1000 + y * 64 + z && g / 0x1000 == x * 64 + y && g / 0x40000 == x;
  }

  lemma FirstGroup(bytes: Bytes, j: nat)
    requires j < |Sextets(bytes)| && j < 4
    ensures Sextets(bytes)[j] == SextetAt(bytes, j)
  {
    assert Group(bytes, 0) == ByteAt(bytes, 0) * 0x10000 + ByteAt(bytes, 1) * 0x100 + ByteAt(bytes, 2);
    GroupSplits(ByteAt(bytes, 0), ByteAt(bytes, 1), ByteAt(bytes, 2));
  }

  /** The sextets of a byte string are the six-bit groups of its 24-bit numbers, as many as its bits need. */
  lemma {:induction false} SextetsAreGroups(bytes: Bytes, j: nat)
    requires j < |Sextets(bytes)|
    ensures |Sextets(bytes)| == (4 * |bytes| + 2) / 3
    ensures Sextets(bytes)[j] == SextetAt(bytes, j)
    decreases |bytes|
  {
    if |bytes| > 3 {
      SextetsAreGroups(bytes[3..], if j < 4 then 0 else j - 4);
    }
    if j < 4 {
      FirstGroup(bytes, j);
    } else {
      assert Group(bytes[3..], (j - 4) / 4) == Group(bytes, j / 4);
    }
  }

  /** base64url as RFC 4648 defines it: every letter is the alphabet's for its six bits. */
  lemma UrlText(bytes: Bytes, j: nat)
    requires j < |UrlEncode(bytes)|
    ensures var v := SextetAt(bytes, j);
      UrlEncode(bytes)[j] == if v < 26 then "ABCDEFGHIJKLMNOPQRSTUVWXYZ"[v]
                             else if v < 52 then "abcdefghijklmnopqrstuvwxyz"[v - 26]
                             else "0123456789-_"[v - 52]
  {
    SextetsAreGroups(bytes, j);
    LetterText(SextetAt(bytes, j));
  }

  lemma LetterText(v: sextet)
    ensures LetterOf(v) == if v < 26 then "ABCDEFGHIJKLMNOPQRSTUVWXYZ"[v]
                           else if v < 52 then "abcdefghijklmnopqrstuvwxyz"[v - 26]
                           else "0123456789-_"[v - 52]
  {
  }

  lemma {:induction false} SextetsRoundTrip(bytes: Bytes)
    ensures FromSextets(Sextets(bytes)) == bytes
  {
    if |bytes| >= 3 {
      SextetsRoundTrip(bytes[3..]);
      assert Sextets(bytes)[4..] == Sextets(bytes[3..]);
      assert bytes == [bytes[0], bytes[1], bytes[2]] + bytes[3..];
    }
  }

  predicate UrlLetter(c: char) {
    'a' <= c <= 'z' || 'A' <= c <= 'Z' || '0' <= c <= '9' || c == '-' || c == '_'
  }

  /** The position of a letter in the alphabet. */
  function LetterValue(c: char): int {
    if 'A' <= c <= 'Z' then c as int - 'A' as int
    else if 'a' <= c <= 'z' then c as int - 'a' as int + 26
    else if '0' <= c <= '9' then c as int - '0' as int + 52
    else if c == '-' then 62 else 63
  }

  lemma AlphabetPosition(v: sextet)
    ensures UrlLetter(LetterOf(v)) && LetterValue(LetterOf(v)) == v
  {
  }

  /** Two random buffers give two different secrets: the encoding is injective. */
  lemma UrlEncodeInjective(a: Bytes, b: Bytes)
    requires UrlEncode(a) == UrlEncode(b)
    ensures a == b
  {
    var x, y := Sextets(a), Sextets(b);
    assert |x| == |UrlEncode(a)| == |y|;
    forall i | 0 <= i < |x| ensures x[i] == y[i] {
      assert UrlEncode(a)[i] == UrlEncode(b)[i];
      AlphabetPosition(x[i]);
      AlphabetPosition(y[i]);
    }
    assert x == y;
    SextetsRoundTrip(a);
    SextetsRoundTrip(b);
  }

  /** Every letter of a secret is a base64url letter: no '.', no whitespace. */
  lemma UrlEncodeAlphabet(bytes: Bytes)
    ensures forall i | 0 <= i < |UrlEncode(bytes)| :: UrlLetter(UrlEncode(bytes)[i])
    ensures bytes != [] ==> UrlEncode(bytes) != ""
  {
    var v := Sextets(bytes);
    forall i | 0 <= i < |v| ensures UrlLetter(UrlEncode(bytes)[i]) {
      AlphabetPosition(v[i]);
    }
  }

  lemma UrlLetterPlain(c: char)
    requires UrlLetter(c)
    ensures !IsSpace(c) && c != '.' && c != ':' && c != ','
  {
  }
}
