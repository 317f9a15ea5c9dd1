/** What the S256 challenge is, letter by letter, in the words of sections 4 and 5 of RFC 4648: the digest as one string
    of bits, cut into groups of six, each the number of a letter. Neither the encoder's grouping nor a decoder is
    used. */
module PkceBits {
  import opened Pkce

  /** Table 2 of RFC 4648. */
  const CAPITALS := "ABCDEFGHIJKLMNOPQRSTUVWXYZ"
  const ALPHABET := CAPITALS + "abcdefghijklmnopqrstuvwxyz" + "0123456789-_"

  /** 2 to the power 7 - j. */
  function Weight(j: nat): (w: int)
    requires j < 8
    ensures w > 0
  {
    if j == 0 then 128 else if j == 1 then 64 else if j == 2 then 32 else if j == 3 then 16
    else if j == 4 then 8 else if j == 5 then 4 else if j == 6 then 2 else 1
  }

  /** Bit i of the digest, the most significant bit of each byte first; bits after the end are zero. */
  function Bit(b: seq<byte>, i: nat): (bit: int)
    ensures 0 <= bit <= 1
  {
    if i / 8 < |b| then b[i / 8] / Weight(i % 8) % 2 else 0
  }

  /** The number made of bits 6k to 6k + 5. */
  function SixBits(b: seq<byte>, k: nat): (v: int)
    ensures 0 <= v < 64
  {
    32 * Bit(b, 6 * k) + 16 * Bit(b, 6 * k + 1) + 8 * Bit(b, 6 * k + 2) + 4 * Bit(b, 6 * k + 3)
    + 2 * Bit(b, 6 * k + 4) + Bit(b, 6 * k + 5)
  }

  lemma AlphabetHas64()
    ensures |ALPHABET| == 64
  {
  }

  lemma LetterOf(v: sextet)
    ensures |ALPHABET| == 64 && CharOf(v) == ALPHABET[v]
  {
    if v < 13 { LettersToM(v); } else if v < 26 { LettersToZ(v); } else if v < 39 { SmallLettersToM(v); }
    else if v < 52 { SmallLettersToZ(v); } else { DigitsAndSigns(v); }
  }

  lemma LettersToM(v: sextet)
    requires v < 13
    ensures |ALPHABET| == 64 && CharOf(v) == ALPHABET[v]
  {
  }

  lemma LettersToZ(v: sextet)
    requires 13 <= v < 26
    ensures |ALPHABET| == 64 && CharOf(v) == ALPHABET[v]
  {
  }

  lemma SmallLettersToM(v: sextet)
    requires 26 <= v < 39
    ensures |ALPHABET| == 64 && CharOf(v) == ALPHABET[v]
  {
  }

  lemma SmallLettersToZ(v: sextet)
    requires 39 <= v < 52
    ensures |ALPHABET| == 64 && CharOf(v) == ALPHABET[v]
  {
  }

  lemma DigitsAndSigns(v: sextet)
    requires 52 <= v
    ensures |ALPHABET| == 64 && CharOf(v) == ALPHABET[v]
  {
  }

  lemma BitOfByte(b: seq<byte>, n: nat, j: nat)
    requires n < |b| && j < 8
    ensures Bit(b, 8 * n + j) == b[n] / Weight(j) % 2
  {
    assert (8 * n + j) / 8 == n && (8 * n + j) % 8 == j;
  }

  lemma HighBits(b: seq<byte>, n: nat)
    requires n < |b|
    ensures Bit(b, 8 * n) == b[n] / 128 && Bit(b, 8 * n + 1) == b[n] / 64 % 2
    ensures Bit(b, 8 * n + 2) == b[n] / 32 % 2 && Bit(b, 8 * n + 3) == b[n] / 16 % 2
  {
    BitOfByte(b, n, 0);
    BitOfByte(b, n, 1);
    BitOfByte(b, n, 2);
    BitOfByte(b, n, 3);
  }

  lemma LowBits(b: seq<byte>, n: nat)
    requires n < |b|
    ensures Bit(b, 8 * n + 4) == b[n] / 8 % 2 && Bit(b, 8 * n + 5) == b[n] / 4 % 2
    ensures Bit(b, 8 * n + 6) == b[n] / 2 % 2 && Bit(b, 8 * n + 7) == b[n] % 2
  {
    BitOfByte(b, n, 4);
    BitOfByte(b, n, 5);
    BitOfByte(b, n, 6);
    BitOfByte(b, n, 7);
  }

  lemma Halve(x: int, m: int)
    requires x >= 0 && m in {1, 2, 4, 8, 16, 32, 64}
    ensures x / m == 2 * (x / (2 * m)) + x / m % 2
  {
    if m == 1 {} else if m == 2 { assert x / 2 / 2 == x / 4; } else if m == 4 { assert x / 4 / 2 == x / 8; }
    else if m == 8 { assert x / 8 / 2 == x / 16; } else if m == 16 { assert x / 16 / 2 == x / 32; }
    else if m == 32 { assert x / 32 / 2 == x / 64; } else { assert x / 64 / 2 == x / 128; }
  }

  /** A byte is the number that its bits make. */
  lemma ByteValue(x: byte)
    ensures x / 64 == 2 * (x / 128) + x / 64 % 2
    ensures x / 16 == 4 * (x / 64) + 2 * (x / 32 % 2) + x / 16 % 2
    ensures x / 4 == 4 * (x / 16) + 2 * (x / 8 % 2) + x / 4 % 2
    ensures x == 4 * (x / 4) + 2 * (x / 2 % 2) + x % 2
  {
    Halve(x, 64);
    Halve(x, 32);
    Halve(x, 16);
    Halve(x, 8);
    Halve(x, 4);
    Halve(x, 2);
    Halve(x, 1);
  }

  /** Three bytes further on, the bits are those of the rest. */
  lemma SixBitsOfRest(b: seq<byte>, k: nat)
    requires |b| >= 3
    ensures SixBits(b, k + 4) == SixBits(b[3..], k)
  {
    forall i: nat ensures Bit(b, i + 24) == Bit(b[3..], i) {
      assert (i + 24) / 8 == i / 8 + 3 && (i + 24) % 8 == i % 8;
    }
    assert 6 * (k + 4) == 6 * k + 24;
  }

  /** The first letters of the encoder are the first groups of six bits, also in a short last group. */
  lemma FirstLetters(b: seq<byte>, k: nat)
    requires b != [] && k < 4 && k < DataLength(|b|)
    ensures k < |UrlsafeB64Encode(b)| && UrlsafeB64Encode(b)[k] == CharOf(SixBits(b, k))
  {
    if k == 0 { FirstLetter(b); } else if k == 1 { SecondLetter(b); }
    else if k == 2 { ThirdLetter(b); } else { FourthLetter(b); }
  }

  /** The letters of the encoder's first group. */
  lemma EncoderLetters(b: seq<byte>)
    requires b != []
    ensures var s := UrlsafeB64Encode(b);
            && |s| >= 4
            && s[0] == CharOf(b[0] / 4)
            && s[1] == CharOf(b[0] % 4 * 16 + if |b| > 1 then b[1] / 16 else 0)
            && (|b| > 1 ==> s[2] == CharOf(b[1] % 16 * 4 + if |b| > 2 then b[2] / 64 else 0))
            && (|b| > 2 ==> s[3] == CharOf(b[2] % 64))
  {
  }

  lemma FirstSix(b: seq<byte>)
    requires b != []
    ensures SixBits(b, 0) == b[0] / 4
  {
    HighBits(b, 0);
    LowBits(b, 0);
    ByteValue(b[0]);
  }

  lemma SecondSix(b: seq<byte>)
    requires b != []
    ensures SixBits(b, 1) == b[0] % 4 * 16 + if |b| > 1 then b[1] / 16 else 0
  {
    LastTwoBits(b);
    NextFourBits(b);
  }

  lemma LastTwoBits(b: seq<byte>)
    requires b != []
    ensures 2 * Bit(b, 6) + Bit(b, 7) == b[0] % 4
  {
    HighBits(b, 0);
    LowBits(b, 0);
    ByteValue(b[0]);
  }

  lemma NextFourBits(b: seq<byte>)
    ensures 8 * Bit(b, 8) + 4 * Bit(b, 9) + 2 * Bit(b, 10) + Bit(b, 11) == if |b| > 1 then b[1] / 16 else 0
  {
    if |b| > 1 {
      HighBits(b, 1);
      LowBits(b, 1);
      ByteValue(b[1]);
    }
  }

  lemma ThirdSix(b: seq<byte>)
    requires |b| > 1
    ensures SixBits(b, 2) == b[1] % 16 * 4 + if |b| > 2 then b[2] / 64 else 0
  {
    LastFourBits(b);
    NextTwoBits(b);
  }

  lemma LastFourBits(b: seq<byte>)
    requires |b| > 1
    ensures 8 * Bit(b, 12) + 4 * Bit(b, 13) + 2 * Bit(b, 14) + Bit(b, 15) == b[1] % 16
  {
    LowBits(b, 1);
    ByteValue(b[1]);
  }

  lemma NextTwoBits(b: seq<byte>)
    requires |b| > 1
    ensures 2 * Bit(b, 16) + Bit(b, 17) == if |b| > 2 then b[2] / 64 else 0
  {
    if |b| > 2 {
      HighBits(b, 2);
      ByteValue(b[2]);
    }
  }

  lemma FourthSix(b: seq<byte>)
    requires |b| > 2
    ensures SixBits(b, 3) == b[2] % 64
  {
    HighBits(b, 2);
    LowBits(b, 2);
    ByteValue(b[2]);
  }

  lemma FirstLetter(b: seq<byte>)
    requires b != []
    ensures |UrlsafeB64Encode(b)| >= 4 && UrlsafeB64Encode(b)[0] == CharOf(SixBits(b, 0))
  {
    EncoderLetters(b);
    FirstSix(b);
  }

  lemma SecondLetter(b: seq<byte>)
    requires b != []
    ensures |UrlsafeB64Encode(b)| >= 4 && UrlsafeB64Encode(b)[1] == CharOf(SixBits(b, 1))
  {
    EncoderLetters(b);
    SecondSix(b);
  }

  lemma ThirdLetter(b: seq<byte>)
    requires |b| > 1
    ensures |UrlsafeB64Encode(b)| >= 4 && UrlsafeB64Encode(b)[2] == CharOf(SixBits(b, 2))
  {
    EncoderLetters(b);
    ThirdSix(b);
  }

  lemma FourthLetter(b: seq<byte>)
    requires |b| > 2
    ensures |UrlsafeB64Encode(b)| >= 4 && UrlsafeB64Encode(b)[3] == CharOf(SixBits(b, 3))
  {
    EncoderLetters(b);
    FourthSix(b);
  }

  lemma ZeroTail(b: seq<byte>)
    ensures |b| == 1 ==> Bit(b, 8) == Bit(b, 9) == Bit(b, 10) == Bit(b, 11) == 0
    ensures |b| == 2 ==> Bit(b, 16) == Bit(b, 17) == 0
  {
  }

  lemma {:induction false} EncodeIsBits(b: seq<byte>, k: nat)
    requires k < DataLength(|b|)
    ensures k < |UrlsafeB64Encode(b)| && UrlsafeB64Encode(b)[k] == CharOf(SixBits(b, k))
  {
    if k < 4 {
      FirstLetters(b, k);
    } else {
      EncodeIsBits(b[3..], k - 4);
      SixBitsOfRest(b, k - 4);
    }
  }

  /** Letter k of a challenge is the letter numbered by bits 6k to 6k + 5 of the digest, missing bits taken as zero. */
  lemma ChallengeIsBits(digest: seq<byte>, k: nat)
    requires k < |CreateS256Challenge(digest)|
    ensures |ALPHABET| == 64 && CreateS256Challenge(digest)[k] == ALPHABET[SixBits(digest, k)]
  {
    StripLeavesData(digest);
    EncodeIsBits(digest, k);
    LetterOf(SixBits(digest, k));
  }

  /** And it has as many letters as it takes to hold every bit. */
  lemma ChallengeLength(digest: seq<byte>)
    ensures var n := |CreateS256Challenge(digest)|;
            6 * n >= 8 * |digest| && (n > 0 ==> 6 * (n - 1) < 8 * |digest|)
  {
    StripLeavesData(digest);
  }
}
