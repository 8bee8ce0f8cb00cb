/** Unpadded base64url (section 5 of RFC 4648) as the WebAuthn boundary decodes it. */
module Base64Url {
  import opened Prelude

  type byte = x: int | 0 <= x < 256
  type sextet = x: int | 0 <= x < 64

  // ---------------------------------------------------------------- letters

  predicate IsLetter(c: char) {
    'A' <= c <= 'Z' || 'a' <= c <= 'z' || '0' <= c <= '9' || c == '-' || c == '_'
  }

  function LetterOf(d: sextet): (c: char)
    ensures IsLetter(c) && SextetOf(c) == d
  {
    if d < 26 then ('A' as int + d) as char
    else if d < 52 then ('a' as int + (d - 26)) as char
    else if d < 62 then ('0' as int + (d - 52)) as char
    else if d == 62 then '-' else '_'
  }

  function SextetOf(c: char): (d: sextet)
    requires IsLetter(c)
  {
    if 'A' <= c <= 'Z' then c as int - 'A' as int
    else if 'a' <= c <= 'z' then c as int - 'a' as int + 26
    else if '0' <= c <= '9' then c as int - '0' as int + 52
    else if c == '-' then 62 else 63
  }

  lemma LettersAreSextets(c: char)
    requires IsLetter(c)
    ensures LetterOf(SextetOf(c)) == c
  {
  }

  predicate AllLetters(s: string) {
    forall c | c in s :: IsLetter(c)
  }

  function Sextets(s: string): (d: seq<sextet>)
    requires AllLetters(s)
    ensures |d| == |s|
  {
    seq(|s|, i requires 0 <= i < |s| => SextetOf(s[i]))
  }

  function Letters(d: seq<sextet>): (s: string)
    ensures |s| == |d| && AllLetters(s) && Sextets(s) == d
  {
    seq(|d|, i requires 0 <= i < |d| => LetterOf(d[i]))
  }

  lemma LettersOfSextets(s: string)
    requires AllLetters(s)
    ensures Letters(Sextets(s)) == s
  {
    forall i | 0 <= i < |s| ensures LetterOf(SextetOf(s[i])) == s[i] { LettersAreSextets(s[i]); }
  }

  // ---------------------------------------------------------------- groups of bits

  /** Up to four sextets to the whole bytes they hold. */
  function PackGroup(d: seq<sextet>): (r: seq<byte>)
    requires 2 <= |d| <= 4
    ensures |r| == |d| - 1
  {
    var first: byte := d[0] as int * 4 + d[1] as int / 16;
    if |d| == 2 then [first]
    else
      var second: byte := d[1] as int % 16 * 16 + d[2] as int / 4;
      if |d| == 3 then [first, second]
      else
        var third: byte := d[2] as int % 4 * 64 + d[3] as int;
        [first, second, third]
  }

  /** Up to three bytes to the sextets that carry them. */
  function UnpackGroup(b: seq<byte>): (d: seq<sextet>)
    requires 1 <= |b| <= 3
    ensures |d| == |b| + 1
  {
    var first: sextet := b[0] / 4;
    if |b| == 1 then [first, b[0] % 4 * 16]
    else
      var second: sextet := b[0] % 4 * 16 + b[1] / 16;
      if |b| == 2 then [first, second, b[1] % 16 * 4]
      else [first, second, b[1] % 16 * 4 + b[2] / 64, b[2] % 64]
  }

  lemma PackOfUnpackGroup(b: seq<byte>)
    requires 1 <= |b| <= 3
    ensures PackGroup(UnpackGroup(b)) == b
  {
  }

  /** The group with the unused low bits of a short one cleared. */
  function Cleared(d: seq<sextet>): (r: seq<sextet>)
    requires 2 <= |d| <= 4
    ensures |r| == |d|
  {
    if |d| == 2 then [d[0], d[1] / 16 * 16]
    else if |d| == 3 then [d[0], d[1], d[2] / 4 * 4]
    else d
  }

  lemma UnpackOfPackGroup(d: seq<sextet>)
    requires 2 <= |d| <= 4
    ensures UnpackGroup(PackGroup(d)) == Cleared(d)
  {
    var b := PackGroup(d);
    assert b[0] / 4 == d[0] && b[0] % 4 == d[1] / 16;
    if |d| == 4 {
      assert b[1] / 16 == d[1] % 16 && b[1] % 16 == d[2] / 4;
      assert b[2] / 64 == d[2] % 4 && b[2] % 64 == d[3];
      assert UnpackGroup(b)[1] == d[1] && UnpackGroup(b)[2] == d[2];
    }
  }

  function Pack(d: seq<sextet>): (r: seq<byte>)
    requires |d| % 4 != 1
    ensures |r| == |d| * 3 / 4
  {
    hide PackGroup;
    if d == [] then []
    else if |d| < 4 then PackGroup(d)
    else PackGroup(d[..4]) + Pack(d[4..])
  }

  function Unpack(b: seq<byte>): (d: seq<sextet>)
    ensures |d| % 4 != 1 && |b| == |d| * 3 / 4
  {
    hide UnpackGroup;
    if b == [] then []
    else if |b| < 3 then UnpackGroup(b)
    else UnpackGroup(b[..3]) + Unpack(b[3..])
  }

  /** All sextets but for the unused low bits of the last one. */
  function Canonical(d: seq<sextet>): (r: seq<sextet>)
    requires |d| % 4 != 1
    ensures |r| == |d|
  {
    if d == [] then []
    else if |d| < 4 then Cleared(d)
    else d[..4] + Canonical(d[4..])
  }

  lemma {:induction false} PackOfUnpack(b: seq<byte>)
    ensures Pack(Unpack(b)) == b
  {
    hide PackGroup, UnpackGroup;
    if 0 < |b| < 3 {
      PackOfUnpackGroup(b);
    } else if b != [] {
      PackOfUnpack(b[3..]);
      PackOfUnpackGroup(b[..3]);
      assert Unpack(b)[..4] == UnpackGroup(b[..3]) && Unpack(b)[4..] == Unpack(b[3..]);
      assert b == b[..3] + b[3..];
    }
  }

  lemma {:induction false} UnpackOfPack(d: seq<sextet>)
    requires |d| % 4 != 1
    ensures Unpack(Pack(d)) == Canonical(d)
  {
    hide PackGroup, UnpackGroup;
    if 0 < |d| < 4 {
      UnpackOfPackGroup(d);
    } else if d != [] {
      UnpackOfPack(d[4..]);
      UnpackOfPackGroup(d[..4]);
      assert Pack(d)[..3] == PackGroup(d[..4]) && Pack(d)[3..] == Pack(d[4..]);
    }
  }

  // ---------------------------------------------------------------- texts

  /** A non-empty text the decoder takes: the alphabet, and no lone trailing letter. */
  predicate WellFormed(s: string) {
    s != "" && |s| % 4 != 1 && AllLetters(s)
  }

  function Encode(b: seq<byte>): string {
    Letters(Unpack(b))
  }

  /** `_decode_base64url`; the value is None when it is not text. */
  function Decode(value: Option<string>): Gate<seq<byte>> {
    if value.None? || value.value == "" then Rejected("missing_client_data")
    else if !WellFormed(value.value) then Rejected("invalid_client_data_encoding")
    else Open(Pack(Sextets(value.value)))
  }

  /** Every non-empty byte string survives: what a browser echoes decodes to the same bytes. */
  lemma DecodeOfEncode(b: seq<byte>)
    requires b != []
    ensures Decode(Some(Encode(b))) == Open(b)
  {
    hide Pack, Letters, Sextets;
    PackOfUnpack(b);
  }

  /** Decoding forgets exactly the unused bits: two texts decode alike when they agree up to them. */
  lemma SameBytesExactly(s: string, t: string)
    requires WellFormed(s) && WellFormed(t)
    ensures Decode(Some(s)) == Decode(Some(t)) <==> Canonical(Sextets(s)) == Canonical(Sextets(t))
  {
    hide Pack, Unpack, Canonical, Sextets;
    UnpackOfPack(Sextets(s));
    UnpackOfPack(Sextets(t));
    PackOfUnpack(Pack(Sextets(s)));
    PackOfUnpack(Pack(Sextets(t)));
  }

  /** A text is its own re-encoding exactly when those bits are clear. */
  lemma ReencodesExactly(s: string)
    requires WellFormed(s)
    ensures Encode(Pack(Sextets(s))) == s <==> Canonical(Sextets(s)) == Sextets(s)
  {
    hide Pack, Unpack, Canonical;
    UnpackOfPack(Sextets(s));
    LettersOfSextets(s);
  }

  /** The decoder is not limited to canonical texts: "AB" and "AA" are the same byte. */
  lemma NonCanonicalAccepted()
    ensures Decode(Some("AB")) == Decode(Some("AA")) == Open([0])
  {
    assert Sextets("AB") == [0, 1] && Sextets("AA") == [0, 0];
  }
}
