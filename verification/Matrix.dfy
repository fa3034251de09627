/** The Matrix connector's percent-encoder and transaction ids
    (interconnect-connector-matrix/src/transport.rs:47-51, 189-204). */
module Matrix {
  import opened Wrappers

  type byte = x: int | 0 <= x < 256

  const HEX: string := "0123456789abcdef"

  /** char::from_digit(d, 16) */
  function HexDigit(d: int): char
    requires 0 <= d < 16
  {
    HEX[d]
  }

  predicate Unreserved(c: char) {
    'A' <= c <= 'Z' || 'a' <= c <= 'z' || '0' <= c <= '9' || c == '-' || c == '_' || c == '.' || c == '~'
  }

  /** One byte; `b >> 4` and `b & 0xf` of a byte are its quotient and remainder by 16. */
  function EncodeByte(b: byte): string {
    if Unreserved(b as char) then [b as char] else ['%', HexDigit(b / 16), HexDigit(b % 16)]
  }

  function Encode(bytes: seq<byte>): string {
    if bytes == [] then "" else Encode(bytes[..|bytes| - 1]) + EncodeByte(bytes[|bytes| - 1])
  }

  method UrlEncode(bytes: seq<byte>) returns (out: string)
    ensures out == Encode(bytes)
  {
    out := "";
    for i := 0 to |bytes|
      invariant out == Encode(bytes[..i])
    {
      var b := bytes[i];
      assert bytes[..i + 1][..i] == bytes[..i];
      ghost var before := out;
      if Unreserved(b as char) {
        out := out + [b as char];
      } else {
        out := out + ['%'];
        out := out + [HexDigit(b / 16)];
        out := out + [HexDigit(b % 16)];
      }
      assert out == before + EncodeByte(b);
    }
    assert bytes[..|bytes|] == bytes;
  }

  // -------------------------------------------------------------------------
  // Decoding, sections 2.1 and 2.3 of RFC 3986.
  // -------------------------------------------------------------------------

  /** Upper and lower case hexadecimal digits are equivalent. */
  function HexValue(c: char): (v: Option<int>)
    ensures v.Some? ==> 0 <= v.value < 16
  {
    if '0' <= c <= '9' then Some(c as int - 48)
    else if 'a' <= c <= 'f' then Some(c as int - 87)
    else if 'A' <= c <= 'F' then Some(c as int - 55)
    else None
  }

  function Decode(s: string): Option<seq<byte>>
    decreases |s|
  {
    if s == "" then Some([])
    else if s[0] == '%' then
      if |s| < 3 then None
      else
        var hi :- HexValue(s[1]);
        var lo :- HexValue(s[2]);
        var rest :- Decode(s[3..]);
        Some([16 * hi + lo] + rest)
    else if Unreserved(s[0]) then
      var rest :- Decode(s[1..]);
      Some([s[0] as int] + rest)
    else None
  }

  lemma HexDigitValue(d: int)
    requires 0 <= d < 16
    ensures HexValue(HexDigit(d)) == Some(d)
  {
    assert HEX[0] == '0' && HEX[9] == '9' && HEX[10] == 'a' && HEX[15] == 'f';
  }

  lemma DecodeUnreserved(c: char, rest: string)
    requires Unreserved(c)
    ensures Decode([c] + rest) == if Decode(rest).None? then None else Some([c as int] + Decode(rest).value)
  {
    assert ([c] + rest)[1..] == rest;
  }

  lemma DecodeEscape(hi: int, lo: int, rest: string)
    requires 0 <= hi < 16 && 0 <= lo < 16
    ensures Decode(['%', HexDigit(hi), HexDigit(lo)] + rest) ==
            if Decode(rest).None? then None else Some([16 * hi + lo] + Decode(rest).value)
  {
    hide HexValue, HexDigit, Unreserved;
    var s := ['%', HexDigit(hi), HexDigit(lo)] + rest;
    assert s[0] == '%' && s[1] == HexDigit(hi) && s[2] == HexDigit(lo) && s[3..] == rest;
    HexDigitValue(hi);
    HexDigitValue(lo);
  }

  lemma DecodeFirst(b: byte, rest: string)
    ensures Decode(EncodeByte(b) + rest) ==
            if Decode(rest).None? then None else Some([b] + Decode(rest).value)
  {
    hide Decode, Unreserved, HexDigit;
    if Unreserved(b as char) {
      DecodeUnreserved(b as char, rest);
    } else {
      DecodeEscape(b / 16, b % 16, rest);
    }
  }

  lemma {:induction false} DecodeBehind(bytes: seq<byte>, rest: string)
    requires Decode(rest).Some?
    ensures Decode(Encode(bytes) + rest) == Some(bytes + Decode(rest).value)
    decreases |bytes|
  {
    hide Decode, EncodeByte;
    if bytes == [] {
      assert Encode(bytes) + rest == rest;
      assert bytes + Decode(rest).value == Decode(rest).value;
    } else {
      var init, b := bytes[..|bytes| - 1], bytes[|bytes| - 1];
      DecodeFirst(b, rest);
      DecodeBehind(init, EncodeByte(b) + rest);
      assert Encode(bytes) + rest == Encode(init) + (EncodeByte(b) + rest);
      assert init + ([b] + Decode(rest).value) == bytes + Decode(rest).value;
    }
  }

  /** Decoding undoes encoding on every byte string. */
  lemma RoundTrip(bytes: seq<byte>)
    ensures Decode(Encode(bytes)) == Some(bytes)
  {
    assert Decode("") == Some([]);
    DecodeBehind(bytes, "");
    assert Encode(bytes) + "" == Encode(bytes);
    assert bytes + [] == bytes;
  }

  lemma Injective(a: seq<byte>, b: seq<byte>)
    requires Encode(a) == Encode(b)
    ensures a == b
  {
    RoundTrip(a);
    RoundTrip(b);
  }

  /** The characters that may stand in the output. */
  predicate PathSafe(c: char) { Unreserved(c) || c == '%' }

  /** A hexadecimal digit as this program writes it. */
  predicate IsHex(c: char) { '0' <= c <= '9' || 'a' <= c <= 'f' }

  predicate WellEscapedAt(s: string, i: nat)
    requires i < |s|
  {
    PathSafe(s[i]) && (s[i] == '%' ==> i + 2 < |s| && IsHex(s[i + 1]) && IsHex(s[i + 2]))
  }

  /** Every '%' of s has two hexadecimal digits behind it. */
  predicate WellEscaped(s: string) {
    forall i :: 0 <= i < |s| ==> WellEscapedAt(s, i)
  }

  lemma WellEscapedConcat(s: string, t: string)
    requires WellEscaped(s) && WellEscaped(t)
    ensures WellEscaped(s + t)
  {
    hide PathSafe, IsHex;
    forall i | 0 <= i < |s + t| ensures WellEscapedAt(s + t, i) {
      if i < |s| {
        assert WellEscapedAt(s, i);
      } else {
        assert WellEscapedAt(t, i - |s|);
      }
    }
  }

  lemma ByteIsWellEscaped(b: byte)
    ensures WellEscaped(EncodeByte(b))
  {
    hide HexDigit, Unreserved, IsHex;
    HexDigitIsUnreserved(b / 16);
    HexDigitIsUnreserved(b % 16);
    PercentIsReserved();
  }

  lemma PercentIsReserved()
    ensures !Unreserved('%')
  {
  }

  /** Only unreserved characters and escapes are emitted, so nothing that ends a path segment. */
  lemma {:induction false} OutputIsPathSafe(bytes: seq<byte>)
    ensures WellEscaped(Encode(bytes))
  {
    hide WellEscaped, EncodeByte;
    if bytes == [] {
      EmptyIsWellEscaped();
    } else {
      OutputIsPathSafe(bytes[..|bytes| - 1]);
      ByteIsWellEscaped(bytes[|bytes| - 1]);
      WellEscapedConcat(Encode(bytes[..|bytes| - 1]), EncodeByte(bytes[|bytes| - 1]));
    }
  }

  lemma EmptyIsWellEscaped()
    ensures WellEscaped("")
  {
  }

  /** The unreserved characters of section 2.3 of RFC 3986: letters, digits and - . _ ~ */
  function UnreservedAt(i: int): char
    requires 0 <= i < 66
  {
    if i < 26 then (65 + i) as char
    else if i < 52 then (71 + i) as char
    else if i < 62 then (i - 4) as char
    else if i == 62 then '-' else if i == 63 then '.' else if i == 64 then '_' else '~'
  }

  /** What is left as it is are exactly these. */
  lemma UnreservedIs(c: char)
    ensures Unreserved(c) <==> exists i :: 0 <= i < 66 && UnreservedAt(i) == c
  {
    if Unreserved(c) {
      var n := c as int;
      var i := if c == '-' then 62 else if c == '.' then 63 else if c == '_' then 64 else if c == '~' then 65
               else if n >= 97 then n - 71 else if n >= 65 then n - 65 else n + 4;
      assert UnreservedAt(i) == c;
    }
  }

  lemma HexDigitIsUnreserved(d: int)
    requires 0 <= d < 16
    ensures Unreserved(HexDigit(d)) && IsHex(HexDigit(d))
  {
    HexDigitValue(d);
  }

  // -------------------------------------------------------------------------
  // Transaction ids: format!("{id:016x}").
  // -------------------------------------------------------------------------

  function HexText(n: nat): string {
    if n < 16 then [HexDigit(n)] else HexText(n / 16) + [HexDigit(n % 16)]
  }

  function Zeros(n: nat): string {
    seq(n, _ => '0')
  }

  function TxnId(n: nat): string {
    var digits := HexText(n);
    if |digits| < 16 then Zeros(16 - |digits|) + digits else digits
  }

  class TxnCounter {
    var counter: nat

    constructor (start: nat)
      ensures counter == start
    {
      counter := start;
    }

    method NextTxnId() returns (id: string)
      modifies this
      ensures id == TxnId(old(counter)) && counter == old(counter) + 1
    {
      var n := counter;
      counter := counter + 1;
      id := TxnId(n);
    }

    /** The ids of a run of sends. */
    method Sends(k: nat) returns (ids: seq<string>)
      modifies this
      ensures |ids| == k && counter == old(counter) + k
      ensures forall i :: 0 <= i < k ==> ids[i] == TxnId(old(counter) + i)
      ensures forall i, j :: 0 <= i < j < k ==> ids[i] != ids[j]
      ensures old(counter) + k <= U64_SIZE ==> forall i :: 0 <= i < k ==> IsTxnId(ids[i])
    {
      hide TxnId, IsTxnId;
      ids := [];
      for n := 0 to k
        invariant |ids| == n && counter == old(counter) + n
        invariant forall i :: 0 <= i < n ==> ids[i] == TxnId(old(counter) + i)
      {
        var id := NextTxnId();
        ids := ids + [id];
      }
      forall i, j | 0 <= i < j < k ensures ids[i] != ids[j] {
        TxnIdsDiffer(old(counter) + i, old(counter) + j);
      }
      if old(counter) + k <= U64_SIZE {
        forall i | 0 <= i < k ensures IsTxnId(ids[i]) {
          TxnIdShape(old(counter) + i);
        }
      }
    }
  }

  const U64_SIZE: nat := 0x1_0000_0000_0000_0000

  predicate IsTxnId(s: string) {
    |s| == 16 && forall i :: 0 <= i < 16 ==> IsHex(s[i])
  }

  /** The number a hexadecimal text denotes. */
  function HexNumber(s: string): int {
    if s == "" then 0
    else HexNumber(s[..|s| - 1]) * 16 + (if HexValue(s[|s| - 1]).Some? then HexValue(s[|s| - 1]).value else 0)
  }

  lemma {:induction false} HexTextNumber(n: nat)
    ensures HexNumber(HexText(n)) == n
  {
    if n < 16 {
      HexDigitValue(n);
      assert [HexDigit(n)][..0] == "";
    } else {
      HexTextNumber(n / 16);
      HexDigitValue(n % 16);
      assert HexText(n)[..|HexText(n)| - 1] == HexText(n / 16);
    }
  }

  lemma {:induction false} LeadingZeros(k: nat, s: string)
    ensures HexNumber(Zeros(k) + s) == HexNumber(s)
    decreases |s|, k
  {
    if s != "" {
      LeadingZeros(k, s[..|s| - 1]);
      assert (Zeros(k) + s)[..k + |s| - 1] == Zeros(k) + s[..|s| - 1];
    } else if k > 0 {
      LeadingZeros(k - 1, "");
      assert Zeros(k) + "" == Zeros(k) && Zeros(k - 1) + "" == Zeros(k - 1);
      assert Zeros(k)[..k - 1] == Zeros(k - 1);
    }
  }

  lemma TxnIdNumber(n: nat)
    ensures HexNumber(TxnId(n)) == n
  {
    HexTextNumber(n);
    if |HexText(n)| < 16 {
      LeadingZeros(16 - |HexText(n)|, HexText(n));
    }
  }

  /** Different counters give different ids. */
  lemma TxnIdsDiffer(m: nat, n: nat)
    requires m != n
    ensures TxnId(m) != TxnId(n)
  {
    TxnIdNumber(m);
    TxnIdNumber(n);
  }

  function Pow16(k: nat): nat {
    if k == 0 then 1 else 16 * Pow16(k - 1)
  }

  lemma {:induction false} HexTextLength(n: nat, k: nat)
    requires k > 0 && n < Pow16(k)
    ensures |HexText(n)| <= k
    ensures forall i :: 0 <= i < |HexText(n)| ==> IsHex(HexText(n)[i])
    decreases k
  {
    if n < 16 {
      HexDigitIsUnreserved(n);
    } else {
      HexTextLength(n / 16, k - 1);
      HexDigitIsUnreserved(n % 16);
    }
  }

  /** Ids of u64 counters have 16 hexadecimal digits. */
  lemma TxnIdShape(n: nat)
    requires n < U64_SIZE
    ensures IsTxnId(TxnId(n))
  {
    assert Pow16(16) == U64_SIZE by {
      assert Pow16(4) == 0x1_0000;
      assert Pow16(8) == 0x1_0000_0000;
      assert Pow16(12) == 0x1_0000_0000_0000;
    }
    HexTextLength(n, 16);
    assert HEX[0] == '0';
  }
}
