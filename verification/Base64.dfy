/** The base64 encoder of the mailing-list connector
    (interconnect-connector-maillist/src/connector.rs:85-111), against a decoder that follows
    section 4 of RFC 4648. */
module Base64 {
  import opened Wrappers

  const UPPER: string := "ABCDEFGHIJKLMNOPQRSTUVWXYZ"
  const LOWER: string := "abcdefghijklmnopqrstuvwxyz"
  const DIGITS: string := "0123456789"
  const ALPHABET: string := UPPER + LOWER + DIGITS + "+/"

  /** The six bits of a 24-bit group that start `shift` bits from its end. */
  function Sextet(n: bv32, shift: bv6): (x: bv32)
    requires shift <= 18
    ensures x < 64
  {
    (n >> shift) & 0x3f
  }

  function Letter(x: bv32): char
    requires x < 64
  {
    ALPHABET[x as int]
  }

  /** The 24 bits of three bytes. */
  function Join(b0: bv8, b1: bv8, b2: bv8): bv32 {
    ((b0 as bv32) << 16) | ((b1 as bv32) << 8) | (b2 as bv32)
  }

  /** The 24 bits of a chunk, missing bytes counted as zero. */
  function Group(chunk: seq<bv8>): bv32
    requires 1 <= |chunk| <= 3
  {
    Join(chunk[0], if |chunk| > 1 then chunk[1] else 0, if |chunk| > 2 then chunk[2] else 0)
  }

  function EncodeChunk(chunk: seq<bv8>): (s: string)
    requires 1 <= |chunk| <= 3
    ensures |s| == 4
  {
    var n := Group(chunk);
    [Letter(Sextet(n, 18)), Letter(Sextet(n, 12)),
     if |chunk| > 1 then Letter(Sextet(n, 6)) else '=',
     if |chunk| > 2 then Letter(Sextet(n, 0)) else '=']
  }

  function Encode(bytes: seq<bv8>): string {
    if bytes == [] then ""
    else if |bytes| <= 3 then EncodeChunk(bytes)
    else EncodeChunk(bytes[..3]) + Encode(bytes[3..])
  }

  /** The first chunk of what is left, as chunks(3) cuts it. */
  function Chunk(bytes: seq<bv8>, i: nat): (chunk: seq<bv8>)
    requires i < |bytes|
    ensures 1 <= |chunk| <= 3
  {
    if |bytes| - i > 3 then bytes[i..i + 3] else bytes[i..]
  }

  lemma EncodeFrom(bytes: seq<bv8>, i: nat)
    requires i < |bytes|
    ensures Encode(bytes[i..]) == EncodeChunk(Chunk(bytes, i)) + Encode(bytes[i + |Chunk(bytes, i)|..])
  {
    hide EncodeChunk;
    var rest := bytes[i..];
    if |rest| > 3 {
      assert rest[..3] == bytes[i..i + 3] && rest[3..] == bytes[i + 3..];
    } else {
      assert bytes[i + |rest|..] == [];
      assert EncodeChunk(rest) + "" == EncodeChunk(rest);
    }
  }

  method Base64Encode(bytes: seq<bv8>) returns (out: string)
    ensures out == Encode(bytes)
  {
    out := "";
    var i := 0;
    assert bytes[0..] == bytes;
    assert out + Encode(bytes[i..]) == Encode(bytes);
    while i < |bytes|
      invariant 0 <= i <= |bytes|
      invariant out + Encode(bytes[i..]) == Encode(bytes)
    {
      var chunk := Chunk(bytes, i);
      EncodeFrom(bytes, i);
      var quad := PushChunk(chunk);
      assert out + (quad + Encode(bytes[i + |chunk|..])) == (out + quad) + Encode(bytes[i + |chunk|..]);
      out := out + quad;
      i := i + |chunk|;
    }
    assert bytes[i..] == [];
  }

  /** The body of the loop: four characters from which the chunk can be decoded, with `=` for each
      byte that it lacks. */
  method PushChunk(chunk: seq<bv8>) returns (quad: string)
    requires 1 <= |chunk| <= 3
    ensures quad == EncodeChunk(chunk) && |quad| == 4
    ensures DecodeQuad(quad) == Some(chunk)
    ensures quad[0] != '=' && quad[1] != '=' && (quad[2] == '=' <==> |chunk| < 2) && (quad[3] == '=' <==> |chunk| < 3)
  {
    hide Letter, Sextet, Group, DecodeQuad, InAlphabet;
    var n := Group(chunk);
    quad := [Letter(Sextet(n, 18))];
    quad := quad + [Letter(Sextet(n, 12))];
    quad := quad + [if |chunk| > 1 then Letter(Sextet(n, 6)) else '='];
    quad := quad + [if |chunk| > 2 then Letter(Sextet(n, 0)) else '='];
    assert quad == EncodeChunk(chunk);
    hide EncodeChunk;
    QuadDecodes(chunk);
    ChunkShape(chunk);
  }

  // -------------------------------------------------------------------------
  // Decoding, section 4 of RFC 4648.
  // -------------------------------------------------------------------------

  /** The place of a character in the alphabet. */
  function IndexOf(c: char): (i: Option<int>)
    ensures i.Some? ==> 0 <= i.value < 64
  {
    if 'A' <= c <= 'Z' then Some(c as int - 65)
    else if 'a' <= c <= 'z' then Some(c as int - 71)
    else if '0' <= c <= '9' then Some(c as int + 4)
    else if c == '+' then Some(62)
    else if c == '/' then Some(63)
    else None
  }

  function ValueOf(c: char): Option<bv32> {
    var i :- IndexOf(c);
    Some(i as bv32)
  }

  /** The 24 bits of four sextets. */
  function Pack(c0: bv32, c1: bv32, c2: bv32, c3: bv32): bv32 {
    (c0 << 18) | (c1 << 12) | (c2 << 6) | c3
  }

  function DecodeQuad(q: string): Option<seq<bv8>>
    requires |q| == 4
  {
    var c0 :- ValueOf(q[0]);
    var c1 :- ValueOf(q[1]);
    if q[2] == '=' then
      if q[3] == '=' then Some([Byte(Pack(c0, c1, 0, 0), 16)]) else None
    else
      var c2 :- ValueOf(q[2]);
      if q[3] == '=' then Some([Byte(Pack(c0, c1, c2, 0), 16), Byte(Pack(c0, c1, c2, 0), 8)])
      else
        var c3 :- ValueOf(q[3]);
        var n := Pack(c0, c1, c2, c3);
        Some([Byte(n, 16), Byte(n, 8), Byte(n, 0)])
  }

  function Byte(n: bv32, shift: bv6): bv8
    requires shift <= 16
  {
    ((n >> shift) & 0xff) as bv8
  }

  /** Padding ends the text. */
  function Decode(s: string): Option<seq<bv8>> {
    if s == "" then Some([])
    else if |s| < 4 then None
    else
      var head :- DecodeQuad(s[..4]);
      if |head| < 3 then (if |s| == 4 then Some(head) else None)
      else
        var tail :- Decode(s[4..]);
        Some(head + tail)
  }

  lemma LetterValue(x: bv32)
    requires x < 64
    ensures ValueOf(Letter(x)) == Some(x) && Letter(x) != '='
  {
    var i := x as int;
    assert 0 <= i < 64;
    assert i as bv32 == x;
    LetterAt(i);
    hide ALPHABET;
  }

  lemma UpperAt(i: int)
    requires 0 <= i < 26
    ensures UPPER[i] as int == 65 + i
  {
  }

  lemma LowerAt(i: int)
    requires 0 <= i < 26
    ensures LOWER[i] as int == 97 + i
  {
  }

  lemma DigitAt(i: int)
    requires 0 <= i < 10
    ensures DIGITS[i] as int == 48 + i
  {
  }

  function CodeAt(i: int): int {
    if i < 26 then 65 + i else if i < 52 then 71 + i else if i < 62 then i - 4 else if i == 62 then 43 else 47
  }

  lemma AlphabetAt(i: int)
    requires 0 <= i < 64
    ensures |ALPHABET| == 64 && ALPHABET[i] as int == CodeAt(i)
  {
    assert |UPPER| == 26 && |LOWER| == 26 && |DIGITS| == 10;
    var upper, lower, digits := UPPER, LOWER, DIGITS;
    hide UPPER, LOWER, DIGITS;
    if i < 26 {
      UpperAt(i);
    } else if i < 52 {
      LowerAt(i - 26);
    } else if i < 62 {
      DigitAt(i - 52);
    }
  }

  lemma IndexOfCode(c: char, i: int)
    requires 0 <= i < 64 && c as int == CodeAt(i)
    ensures IndexOf(c) == Some(i) && c != '='
  {
  }

  lemma LetterAt(i: int)
    requires 0 <= i < 64
    ensures |ALPHABET| == 64
    ensures IndexOf(ALPHABET[i]) == Some(i) && ALPHABET[i] != '='
  {
    AlphabetAt(i);
    IndexOfCode(ALPHABET[i], i);
    hide IndexOf, CodeAt;
  }

  // -------------------------------------------------------------------------
  // Main results.
  // -------------------------------------------------------------------------

  lemma SextetsJoin(n: bv32)
    requires n < 0x100_0000
    ensures Pack(Sextet(n, 18), Sextet(n, 12), Sextet(n, 6), Sextet(n, 0)) == n
    ensures n & 0xff == 0 ==> Pack(Sextet(n, 18), Sextet(n, 12), Sextet(n, 6), 0) == n
    ensures n & 0xffff == 0 ==> Pack(Sextet(n, 18), Sextet(n, 12), 0, 0) == n
  {
  }

  lemma JoinBytes(b0: bv8, b1: bv8, b2: bv8)
    ensures var n := Join(b0, b1, b2);
            && n < 0x100_0000 && Byte(n, 16) == b0 && Byte(n, 8) == b1 && Byte(n, 0) == b2
            && (b2 == 0 ==> n & 0xff == 0) && (b1 == 0 && b2 == 0 ==> n & 0xffff == 0)
  {
  }

  /** Cutting 24 bits into sextets and packing them gives the bytes back; with fewer bytes the last
      sextets are not needed. */
  lemma BytesSurvive(b0: bv8, b1: bv8, b2: bv8)
    ensures var n := Join(b0, b1, b2);
            && Byte(n, 16) == b0 && Byte(n, 8) == b1 && Byte(n, 0) == b2
            && Pack(Sextet(n, 18), Sextet(n, 12), Sextet(n, 6), Sextet(n, 0)) == n
            && (b2 == 0 ==> Pack(Sextet(n, 18), Sextet(n, 12), Sextet(n, 6), 0) == n)
            && (b1 == 0 && b2 == 0 ==> Pack(Sextet(n, 18), Sextet(n, 12), 0, 0) == n)
  {
    JoinBytes(b0, b1, b2);
    SextetsJoin(Join(b0, b1, b2));
    hide Join, Pack, Sextet, Byte;
  }

  lemma LettersOfGroup(n: bv32)
    ensures ValueOf(Letter(Sextet(n, 18))) == Some(Sextet(n, 18))
    ensures ValueOf(Letter(Sextet(n, 12))) == Some(Sextet(n, 12))
    ensures ValueOf(Letter(Sextet(n, 6))) == Some(Sextet(n, 6)) && Letter(Sextet(n, 6)) != '='
    ensures ValueOf(Letter(Sextet(n, 0))) == Some(Sextet(n, 0)) && Letter(Sextet(n, 0)) != '='
    ensures Letter(Sextet(n, 18)) != '=' && Letter(Sextet(n, 12)) != '='
  {
    hide Letter, ValueOf, Sextet;
    LetterValue(Sextet(n, 18));
    LetterValue(Sextet(n, 12));
    LetterValue(Sextet(n, 6));
    LetterValue(Sextet(n, 0));
  }

  lemma QuadDecodes(chunk: seq<bv8>)
    requires 1 <= |chunk| <= 3
    ensures DecodeQuad(EncodeChunk(chunk)) == Some(chunk)
  {
    hide Letter, ValueOf, Sextet, Byte, Join, Pack;
    var n := Group(chunk);
    LettersOfGroup(n);
    var b1 := if |chunk| > 1 then chunk[1] else 0;
    var b2 := if |chunk| > 2 then chunk[2] else 0;
    BytesSurvive(chunk[0], b1, b2);
    if |chunk| == 1 {
      assert chunk == [chunk[0]];
    } else if |chunk| == 2 {
      assert chunk == [chunk[0], chunk[1]];
    } else {
      assert chunk == [chunk[0], chunk[1], chunk[2]];
    }
  }

  /** Decoding undoes encoding on every byte string. */
  lemma {:induction false} RoundTrip(bytes: seq<bv8>)
    ensures Decode(Encode(bytes)) == Some(bytes)
  {
    hide EncodeChunk, DecodeQuad;
    if bytes != [] {
      if |bytes| <= 3 {
        QuadDecodes(bytes);
        var quad := EncodeChunk(bytes);
        assert quad[..4] == quad && quad[4..] == "";
        assert Decode("") == Some([]);
        assert bytes + [] == bytes;
      } else {
        QuadDecodes(bytes[..3]);
        var quad := EncodeChunk(bytes[..3]);
        assert (quad + Encode(bytes[3..]))[..4] == quad;
        assert (quad + Encode(bytes[3..]))[4..] == Encode(bytes[3..]);
        RoundTrip(bytes[3..]);
        assert bytes[..3] + bytes[3..] == bytes;
      }
    }
  }

  lemma Injective(a: seq<bv8>, b: seq<bv8>)
    requires Encode(a) == Encode(b)
    ensures a == b
  {
    RoundTrip(a);
    RoundTrip(b);
  }

  /** The number of padding characters. */
  function Padding(n: nat): nat {
    if n % 3 == 1 then 2 else if n % 3 == 2 then 1 else 0
  }

  predicate InAlphabet(c: char) { c in ALPHABET }

  lemma ChunkShape(chunk: seq<bv8>)
    requires 1 <= |chunk| <= 3
    ensures var q := EncodeChunk(chunk);
            && q[0] != '=' && q[1] != '=' && InAlphabet(q[0]) && InAlphabet(q[1])
            && (q[2] == '=' <==> |chunk| < 2) && (q[2] != '=' ==> InAlphabet(q[2]))
            && (q[3] == '=' <==> |chunk| < 3) && (q[3] != '=' ==> InAlphabet(q[3]))
  {
    hide Letter, ValueOf, Sextet, InAlphabet, Group;
    var n := Group(chunk);
    LettersOfGroup(n);
    LetterInAlphabet(Sextet(n, 18));
    LetterInAlphabet(Sextet(n, 12));
    LetterInAlphabet(Sextet(n, 6));
    LetterInAlphabet(Sextet(n, 0));
  }

  lemma LetterInAlphabet(x: bv32)
    requires x < 64
    ensures InAlphabet(Letter(x))
  {
  }

  /** The output has four characters for every three bytes begun; `=` stands exactly on the last
      places that the length leaves over, and every other character is of the alphabet. */
  lemma {:induction false} Shape(bytes: seq<bv8>)
    ensures |Encode(bytes)| == 4 * ((|bytes| + 2) / 3)
    ensures forall i :: 0 <= i < |Encode(bytes)| ==>
              && (Encode(bytes)[i] == '=' <==> i >= |Encode(bytes)| - Padding(|bytes|))
              && (Encode(bytes)[i] != '=' ==> InAlphabet(Encode(bytes)[i]))
  {
    hide EncodeChunk, InAlphabet;
    if bytes != [] {
      if |bytes| <= 3 {
        ChunkShape(bytes);
      } else {
        var quad := EncodeChunk(bytes[..3]);
        ChunkShape(bytes[..3]);
        Shape(bytes[3..]);
        assert Padding(|bytes|) == Padding(|bytes| - 3);
        assert forall i :: 4 <= i < |Encode(bytes)| ==> Encode(bytes)[i] == Encode(bytes[3..])[i - 4];
        assert forall i :: 0 <= i < 4 ==> Encode(bytes)[i] == quad[i];
      }
    }
  }
}
