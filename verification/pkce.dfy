/** The S256 challenge of src/todo_api/services/oauth.py: base64url (section 5 of RFC 4648) with its padding
    stripped (section 4.2 of RFC 7636), over any digest. SHA-256 itself is a parameter. */
module Pkce {

  type byte = b: int | 0 <= b < 256

  type sextet = v: int | 0 <= v < 64

  const DIGEST_LENGTH := 32

  predicate AllowedChar(c: char) {
    'A' <= c <= 'Z' || 'a' <= c <= 'z' || '0' <= c <= '9' || c == '-' || c == '_'
  }

  function CharOf(v: sextet): (c: char)
    ensures AllowedChar(c)
  {
    if v < 26 then ('A' as int + v) as char
    else if v < 52 then ('a' as int + v - 26) as char
    else if v < 62 then ('0' as int + v - 52) as char
    else if v == 62 then '-' else '_'
  }

  function ValueOf(c: char): sextet
    requires AllowedChar(c)
  {
    if 'A' <= c <= 'Z' then c as int - 'A' as int
    else if 'a' <= c <= 'z' then c as int - 'a' as int + 26
    else if '0' <= c <= '9' then c as int - '0' as int + 52
    else if c == '-' then 62 else 63
  }

  lemma CharRoundTrip(v: sextet)
    ensures ValueOf(CharOf(v)) == v
  {
  }

  /** `urlsafe_b64encode`: groups of three bytes, a short last group padded with '='. */
  function UrlsafeB64Encode(b: seq<byte>): string {
    if b == [] then ""
    else if |b| == 1 then [CharOf(b[0] / 4), CharOf(b[0] % 4 * 16), '=', '=']
    else if |b| == 2 then [CharOf(b[0] / 4), CharOf(b[0] % 4 * 16 + b[1] / 16), CharOf(b[1] % 16 * 4), '=']
    else
      [CharOf(b[0] / 4), CharOf(b[0] % 4 * 16 + b[1] / 16), CharOf(b[1] % 16 * 4 + b[2] / 64), CharOf(b[2] % 64)]
      + UrlsafeB64Encode(b[3..])
  }

  function RStrip(s: string, c: char): string {
    if s != "" && s[|s| - 1] == c then RStrip(s[..|s| - 1], c) else s
  }

  function CreateS256Challenge(digest: seq<byte>): string {
    RStrip(UrlsafeB64Encode(digest), '=')
  }

  /** Reads unpadded base64url back into bytes. */
  function Decode(s: string): seq<byte>
    requires forall c <- s :: AllowedChar(c)
  {
    if |s| < 2 then []
    else
      var v0, v1 := ValueOf(s[0]), ValueOf(s[1]);
      var first: byte := v0 * 4 + v1 / 16;
      if |s| == 2 then [first]
      else
        var v2 := ValueOf(s[2]);
        var second: byte := v1 % 16 * 16 + v2 / 4;
        if |s| == 3 then [first, second]
        else
          var third: byte := v2 % 4 * 64 + ValueOf(s[3]);
          [first, second, third] + Decode(s[4..])
  }

  /** The number of characters that carry data: four for three bytes, three for two, two for one. */
  function DataLength(n: nat): nat { n / 3 * 4 + (if n % 3 == 0 then 0 else n % 3 + 1) }

  /** Stripping '=' leaves exactly the data characters, each from the URL-safe alphabet. */
  lemma {:induction false} StripLeavesData(b: seq<byte>)
    ensures var s := CreateS256Challenge(b);
            && |s| == DataLength(|b|)
            && s <= UrlsafeB64Encode(b)
            && (forall c <- s :: AllowedChar(c))
  {
    if |b| >= 3 {
      var tail := UrlsafeB64Encode(b[3..]);
      StripLeavesData(b[3..]);
      assert forall c <- UrlsafeB64Encode(b)[..4] :: AllowedChar(c);
      StripSuffix(UrlsafeB64Encode(b)[..4], tail);
      assert UrlsafeB64Encode(b) == UrlsafeB64Encode(b)[..4] + tail;
    } else if |b| == 2 {
      var s := UrlsafeB64Encode(b);
      assert s[..3] == [s[0], s[1], s[2]];
      assert RStrip(s[..3], '=') == s[..3];
    } else if |b| == 1 {
      var s := UrlsafeB64Encode(b);
      assert s[..3][..2] == s[..2];
      assert RStrip(s[..2], '=') == s[..2];
      assert RStrip(s[..3], '=') == s[..2];
    }
  }

  /** Padding is only ever stripped from the last group. */
  lemma {:induction false} StripSuffix(front: string, tail: string)
    requires front != "" && front[|front| - 1] != '='
    ensures RStrip(front + tail, '=') == front + RStrip(tail, '=')
  {
    if tail == "" {
      assert front + tail == front;
    } else if tail[|tail| - 1] == '=' {
      assert (front + tail)[..|front + tail| - 1] == front + tail[..|tail| - 1];
      StripSuffix(front, tail[..|tail| - 1]);
    }
  }

  /** A full group decodes to its three bytes, whatever follows. */
  lemma GroupRoundTrip(b: seq<byte>, rest: string)
    requires |b| == 3 && forall c <- rest :: AllowedChar(c)
    ensures UrlsafeB64Encode(b) + rest != ""
    ensures forall c <- UrlsafeB64Encode(b) + rest :: AllowedChar(c)
    ensures Decode(UrlsafeB64Encode(b) + rest) == b + Decode(rest)
  {
    var v0: sextet, v1: sextet := b[0] / 4, b[0] % 4 * 16 + b[1] / 16;
    var v2: sextet, v3: sextet := b[1] % 16 * 4 + b[2] / 64, b[2] % 64;
    CharRoundTrip(v0);
    CharRoundTrip(v1);
    CharRoundTrip(v2);
    CharRoundTrip(v3);
    var s := UrlsafeB64Encode(b) + rest;
    assert UrlsafeB64Encode(b[3..]) == "";
    assert UrlsafeB64Encode(b) == [CharOf(v0), CharOf(v1), CharOf(v2), CharOf(v3)];
    assert s[4..] == rest;
    assert v0 * 4 + v1 / 16 == b[0];
    assert v1 % 16 * 16 + v2 / 4 == b[1];
    assert v2 % 4 * 64 + v3 == b[2];
    assert b == [b[0], b[1], b[2]];
  }

  lemma ShortRoundTrip(b: seq<byte>)
    requires |b| < 3
    ensures forall c <- CreateS256Challenge(b) :: AllowedChar(c)
    ensures Decode(CreateS256Challenge(b)) == b
  {
    StripLeavesData(b);
    if |b| > 0 {
      CharRoundTrip(b[0] / 4);
      if |b| == 1 {
        CharRoundTrip(b[0] % 4 * 16);
      } else {
        CharRoundTrip(b[0] % 4 * 16 + b[1] / 16);
        CharRoundTrip(b[1] % 16 * 4);
      }
    }
  }

  lemma {:induction false} DecodeInvertsChallenge(b: seq<byte>)
    ensures forall c <- CreateS256Challenge(b) :: AllowedChar(c)
    ensures Decode(CreateS256Challenge(b)) == b
  {
    if |b| < 3 {
      ShortRoundTrip(b);
    } else {
      DecodeInvertsChallenge(b[3..]);
      var front := UrlsafeB64Encode(b[..3]);
      assert b[..3][3..] == [] && UrlsafeB64Encode(b[..3][3..]) == "";
      assert UrlsafeB64Encode(b) == front + UrlsafeB64Encode(b[3..]);
      StripSuffix(front, UrlsafeB64Encode(b[3..]));
      GroupRoundTrip(b[..3], CreateS256Challenge(b[3..]));
      assert b == b[..3] + b[3..];
    }
  }

  /** Every computed challenge is 43 characters of the alphabet that the request schema and the column demand, and
      two digests share a challenge only if they are equal. */
  lemma ChallengeForm(digest: seq<byte>, other: seq<byte>)
    requires |digest| == DIGEST_LENGTH
    ensures |CreateS256Challenge(digest)| == 43
    ensures forall c <- CreateS256Challenge(digest) :: AllowedChar(c)
    ensures CreateS256Challenge(digest) == CreateS256Challenge(other) <==> digest == other
  {
    StripLeavesData(digest);
    DecodeInvertsChallenge(digest);
    DecodeInvertsChallenge(other);
  }
}
