/** The content fingerprint of src/core/utils.py: the description is lower-cased
    and stripped, encoded as UTF-8, digested with SHA-256 and rendered as a
    lower-case hexadecimal string. SHA-256 itself is a parameter `sha`; the model
    only relies on it returning 32 bytes. */
module Fingerprint {
  import opened Text

  newtype byte = x: int | 0 <= x < 256

  /** A SHA-256 digest: always exactly 32 bytes. */
  type Digest = s: seq<byte> | |s| == 32 witness seq(32, _ => 0 as byte)

  /** The normal form that is hashed: `text.lower().strip()`. */
  function Normalize(text: string): (n: string)
    ensures NoEdgeSpace(n)
    ensures NoUpper(n)
    ensures |n| <= |text|
  {
    Strip(Lower(text))
  }

  /** Normalizing twice changes nothing. */
  lemma NormalizeIdempotent(text: string)
    ensures Normalize(Normalize(text)) == Normalize(text)
  {
    var n := Normalize(text);
    assert Lower(n) == n;
    StripOfTrimmed(n);
  }

  /** Only the two ends are trimmed: interior runs of whitespace survive, so
      "a  b" and "a b" have different normal forms. */
  lemma InteriorSpacePreserved()
    ensures Normalize("a  b") == "a  b"
    ensures Normalize("a b") == "a b"
    ensures Normalize("a  b") != Normalize("a b")
  {
    assert NoUpper("a  b") && NoUpper("a b");
    StripOfTrimmed("a  b");
    StripOfTrimmed("a b");
  }

  // ---- UTF-8 ----

  /** The UTF-8 encoding of one Unicode scalar value (RFC 3629, section 3). */
  function Utf8Char(c: char): (r: seq<byte>)
    ensures 1 <= |r| <= 4
    ensures LeadLength(r[0]) == |r|
    ensures forall k :: 1 <= k < |r| ==> 0x80 <= r[k] < 0xC0
  {
    var n := c as int;
    if n < 0x80 then [n as byte]
    else if n < 0x800 then [(0xC0 + n / 64) as byte, (0x80 + n % 64) as byte]
    else if n < 0x10000 then
      [(0xE0 + n / 4096) as byte, (0x80 + (n / 64) % 64) as byte, (0x80 + n % 64) as byte]
    else
      [(0xF0 + n / 262144) as byte, (0x80 + (n / 4096) % 64) as byte,
       (0x80 + (n / 64) % 64) as byte, (0x80 + n % 64) as byte]
  }

  /** How many bytes a sequence starting with lead byte `b` occupies. */
  function LeadLength(b: byte): nat {
    if b < 0x80 then 1 else if b < 0xE0 then 2 else if b < 0xF0 then 3 else 4
  }

  /** Reads the scalar value back from a well-formed one-character encoding. */
  function DecodeChar(r: seq<byte>): int
    requires 1 <= |r| <= 4
  {
    if |r| == 1 then r[0] as int
    else if |r| == 2 then (r[0] as int - 0xC0) * 64 + (r[1] as int - 0x80)
    else if |r| == 3 then
      (r[0] as int - 0xE0) * 4096 + (r[1] as int - 0x80) * 64 + (r[2] as int - 0x80)
    else
      (r[0] as int - 0xF0) * 262144 + (r[1] as int - 0x80) * 4096
      + (r[2] as int - 0x80) * 64 + (r[3] as int - 0x80)
  }

  lemma Utf8CharRoundTrip(c: char)
    ensures DecodeChar(Utf8Char(c)) == c as int
  {
    var n := c as int;
    if n >= 0x10000 {
      assert n == (n / 262144) * 262144 + ((n / 4096) % 64) * 4096 + ((n / 64) % 64) * 64 + n % 64;
    } else if n >= 0x800 {
      assert n == (n / 4096) * 4096 + ((n / 64) % 64) * 64 + n % 64;
    }
  }

  /** `str.encode("utf-8")`. */
  function Utf8(s: string): (r: seq<byte>)
    ensures |s| <= |r|
  {
    if |s| == 0 then [] else Utf8Char(s[0]) + Utf8(s[1..])
  }

  /** UTF-8 is injective: the lead byte fixes each character's length, and the
      bytes fix the character. */
  lemma {:induction false} Utf8Injective(a: string, b: string)
    requires Utf8(a) == Utf8(b)
    ensures a == b
  {
    if |a| > 0 && |b| > 0 {
      var ea, eb := Utf8Char(a[0]), Utf8Char(b[0]);
      assert Utf8(a)[0] == ea[0] && Utf8(b)[0] == eb[0];
      assert |ea| == |eb|;
      assert ea == Utf8(a)[..|ea|] && eb == Utf8(b)[..|eb|];
      Utf8CharRoundTrip(a[0]);
      Utf8CharRoundTrip(b[0]);
      assert a[0] == b[0];
      assert Utf8(a[1..]) == Utf8(a)[|ea|..] == Utf8(b)[|eb|..] == Utf8(b[1..]);
      Utf8Injective(a[1..], b[1..]);
      assert a == [a[0]] + a[1..] && b == [b[0]] + b[1..];
    }
  }

  // ---- hex ----

  ghost predicate IsLowerHex(h: string) {
    forall k :: 0 <= k < |h| ==> h[k] in HexDigits
  }

  /** The two lower-case hex digits of one byte, high nibble first. */
  function HexPair(b: byte): (h: string)
    ensures |h| == 2 && h[0] in HexDigits && h[1] in HexDigits
  {
    [HexDigits[b as int / 16], HexDigits[b as int % 16]]
  }

  /** `bytes.hex()` / `hexdigest()`. */
  function ToHex(bs: seq<byte>): (h: string)
    ensures |h| == 2 * |bs|
    ensures IsLowerHex(h)
  {
    if |bs| == 0 then [] else HexPair(bs[0]) + ToHex(bs[1..])
  }

  /** The byte written by two hex digits (a non-hex character counts as 0). */
  function HexByte(hi: char, lo: char): byte {
    (HexValue(hi) * 16 + HexValue(lo)) as byte
  }

  /** `bytes.fromhex`, on well-formed input. */
  function FromHex(h: string): seq<byte>
    requires |h| % 2 == 0
  {
    if |h| == 0 then [] else [HexByte(h[0], h[1])] + FromHex(h[2..])
  }

  lemma HexPairRoundTrip(b: byte)
    ensures HexByte(HexPair(b)[0], HexPair(b)[1]) == b
  {
    HexDigitValue(b as int / 16);
    HexDigitValue(b as int % 16);
  }

  lemma {:induction false} HexRoundTrip(bs: seq<byte>)
    ensures FromHex(ToHex(bs)) == bs
  {
    if |bs| > 0 {
      var h := ToHex(bs);
      assert h[..2] == HexPair(bs[0]) && h[2..] == ToHex(bs[1..]);
      HexRoundTrip(bs[1..]);
      HexPairRoundTrip(bs[0]);
    }
  }

  // ---- the fingerprint ----

  /** `calculate_content_hash(text)`. */
  function ContentHash(sha: seq<byte> -> Digest, text: string): (h: string)
    ensures |h| == 64
    ensures IsLowerHex(h)
  {
    ToHex(sha(Utf8(Normalize(text))))
  }

  /** The hex rendering is injective, so two fingerprints agree exactly when
      the two digests do. */
  lemma ContentHashSameDigest(sha: seq<byte> -> Digest, a: string, b: string)
    ensures ContentHash(sha, a) == ContentHash(sha, b) <==> sha(Utf8(Normalize(a))) == sha(Utf8(Normalize(b)))
  {
    if ContentHash(sha, a) == ContentHash(sha, b) {
      HexRoundTrip(sha(Utf8(Normalize(a))));
      HexRoundTrip(sha(Utf8(Normalize(b))));
    }
  }

  /** Descriptions with the same normal form share a fingerprint; when the
      digest does not collide on their two encodings, the converse holds too. */
  lemma ContentHashEqualIff(sha: seq<byte> -> Digest, a: string, b: string)
    requires sha(Utf8(Normalize(a))) == sha(Utf8(Normalize(b))) ==> Utf8(Normalize(a)) == Utf8(Normalize(b))
    ensures ContentHash(sha, a) == ContentHash(sha, b) <==> Normalize(a) == Normalize(b)
  {
    ContentHashSameDigest(sha, a, b);
    if ContentHash(sha, a) == ContentHash(sha, b) {
      Utf8Injective(Normalize(a), Normalize(b));
    }
  }

  /** Hashing the normal form gives the same fingerprint as hashing the text. */
  lemma ContentHashOfNormalForm(sha: seq<byte> -> Digest, text: string)
    ensures ContentHash(sha, Normalize(text)) == ContentHash(sha, text)
  {
    NormalizeIdempotent(text);
  }

  /** A text that lowers to a word with no edge whitespace normalises to it,
      and so does one that lowers to that word and a trailing blank. */
  lemma NormalizeOfLowered(a: string, n: string)
    requires NoEdgeSpace(n) && Lower(a) == n
    ensures Normalize(a) == n
  {
    StripOfTrimmed(n);
  }

  lemma NormalizeOfTrailingBlank(b: string, n: string)
    requires NoEdgeSpace(n) && Lower(b) == n + " "
    ensures Normalize(b) == n
  {
    StripTrailingBlank(n);
  }

  lemma StripTrailingBlank(n: string)
    requires NoEdgeSpace(n)
    ensures Strip(n + " ") == n
  {
    assert AllSpace(" ") by {
      assert IsSpace(' ');
    }
    assert n + " " == "" + n + " ";
    StripUnique("", n, " ");
  }

  lemma LowerMouseBroken(a: string, n: string)
    requires a == "Mouse Broken" && n == "mouse broken"
    ensures Lower(a) == n
  {
    assert forall k :: 0 <= k < |a| ==> Lower(a)[k] == n[k];
  }

  lemma LowerMouseBrokenBlank(b: string, n: string)
    requires b == "mouse broken " && n == "mouse broken"
    ensures Lower(b) == n + " " && NoEdgeSpace(n)
  {
    assert NoUpper(b);
    assert b == n + " ";
    assert n[0] == 'm' && n[|n| - 1] == 'n';
  }

  /** The example in the source comment: case and a trailing blank are ignored. */
  lemma MouseBrokenExample(sha: seq<byte> -> Digest)
    ensures ContentHash(sha, "Mouse Broken") == ContentHash(sha, "mouse broken ")
  {
    LowerMouseBroken("Mouse Broken", "mouse broken");
    LowerMouseBrokenBlank("mouse broken ", "mouse broken");
    NormalizeOfLowered("Mouse Broken", "mouse broken");
    NormalizeOfTrailingBlank("mouse broken ", "mouse broken");
    SameNormalFormSameHash(sha, "Mouse Broken", "mouse broken ");
  }

  lemma SameNormalFormSameHash(sha: seq<byte> -> Digest, a: string, b: string)
    requires Normalize(a) == Normalize(b)
    ensures ContentHash(sha, a) == ContentHash(sha, b)
  {
  }
}
