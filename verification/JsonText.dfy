/** JSON texts in the grammar of RFC 8259, with every layout.  A string is a sequence of
    units, one per character or escape; a value is a tree that also carries the white space
    printed around its tokens.  Printing takes the text that follows, so that scanners,
    which always look at what follows, can be reasoned about directly. */
module JsonText {

  datatype Unit =
    | Plain(c: char)         // the character itself
    | Escape(c: char)        // a backslash and c
    | Unicode(hex: string)   // a backslash, u and four hexadecimal digits

  predicate IsHexDigit(c: char) {
    '0' <= c <= '9' || 'a' <= c <= 'f' || 'A' <= c <= 'F'
  }

  predicate WellFormedUnit(u: Unit) {
    match u
    case Plain(c) => ' ' <= c && c != '"' && c != '\\'
    case Escape(c) => c in "\"\\/bfnrt"
    case Unicode(hex) => |hex| == 4 && forall i :: 0 <= i < 4 ==> IsHexDigit(hex[i])
  }

  predicate WellFormedUnits(us: seq<Unit>) {
    forall i :: 0 <= i < |us| ==> WellFormedUnit(us[i])
  }

  function UnitText(u: Unit): string {
    match u
    case Plain(c) => [c]
    case Escape(c) => ['\\', c]
    case Unicode(hex) => "\\u" + hex
  }

  /** The characters between the quotes of a string, followed by `rest`. */
  function UnitsText(us: seq<Unit>, rest: string): string {
    if us == [] then rest else UnitText(us[0]) + UnitsText(us[1..], rest)
  }

  /** The value of a simple escape. */
  function EscapeValue(c: char): char {
    match c
    case 'b' => '\U{08}'
    case 'f' => '\U{0C}'
    case 'n' => '\n'
    case 'r' => '\r'
    case 't' => '\t'
    case _ => c
  }

  predicate IsWhite(c: char) {
    c in " \t\n\r"
  }

  predicate White(w: string) {
    forall i :: 0 <= i < |w| ==> IsWhite(w[i])
  }

  datatype Json =
    | Literal(text: string)   // a number, true, false or null
    | Text(units: seq<Unit>)
    | Array(pad: string, elems: Elems)
    | Object(pad: string, members: Members)

  datatype Elems = NoElems | Elem(before: string, value: Json, after: string, next: Elems)

  datatype Members =
    | NoMembers
    | Member(before: string, key: seq<Unit>, gap: string, lead: string, value: Json, after: string, next: Members)

  /** Literals need no quotes, backslashes, braces, brackets, commas, colons or spaces. */
  predicate WellFormedLiteral(t: string) {
    && t != ""
    && forall i :: 0 <= i < |t| ==> ' ' < t[i] && t[i] !in "\"\\{}[],:"
  }

  predicate WellFormed(v: Json) {
    match v
    case Literal(t) => WellFormedLiteral(t)
    case Text(us) => WellFormedUnits(us)
    case Array(pad, es) => White(pad) && WellFormedElems(es)
    case Object(pad, ms) => White(pad) && WellFormedMembers(ms)
  }

  predicate WellFormedElems(es: Elems) {
    match es
    case NoElems => true
    case Elem(b, v, a, next) => White(b) && WellFormed(v) && White(a) && WellFormedElems(next)
  }

  predicate WellFormedMembers(ms: Members) {
    match ms
    case NoMembers => true
    case Member(b, k, g, l, v, a, next) =>
      && White(b) && WellFormedUnits(k) && White(g) && White(l)
      && WellFormed(v) && White(a) && WellFormedMembers(next)
  }

  function StringText(us: seq<Unit>, rest: string): string {
    "\"" + UnitsText(us, "\"" + rest)
  }

  /** The text of a value, followed by `rest`. */
  function ValueText(v: Json, rest: string): string {
    match v
    case Literal(t) => t + rest
    case Text(us) => StringText(us, rest)
    case Array(pad, es) => "[" + (pad + ElemsText(es, "]" + rest))
    case Object(pad, ms) => "{" + (pad + MembersText(ms, "}" + rest))
  }

  function ElemsText(es: Elems, rest: string): string {
    match es
    case NoElems => rest
    case Elem(b, v, a, next) =>
      var tail := if next.NoElems? then rest else "," + ElemsText(next, rest);
      b + ValueText(v, a + tail)
  }

  function MembersText(ms: Members, rest: string): string {
    match ms
    case NoMembers => rest
    case Member(b, k, g, l, v, a, next) =>
      var tail := if next.NoMembers? then rest else "," + MembersText(next, rest);
      b + StringText(k, g + (":" + (l + ValueText(v, a + tail))))
  }

  // -------------------------------------------------------------------------
  // What a string denotes.
  // -------------------------------------------------------------------------

  function HexValue(c: char): int
    requires IsHexDigit(c)
  {
    if c <= '9' then c as int - '0' as int
    else if c <= 'F' then c as int - 'A' as int + 10
    else c as int - 'a' as int + 10
  }

  function CodeOf(u: Unit): int
    requires WellFormedUnit(u)
  {
    match u
    case Plain(c) => c as int
    case Escape(c) => EscapeValue(c) as int
    case Unicode(h) => HexValue(h[0]) * 4096 + HexValue(h[1]) * 256 + HexValue(h[2]) * 16 + HexValue(h[3])
  }

  /** The hexadecimal digits, in either case, are these, and their values are their places. */
  lemma HexDigits(c: char)
    ensures IsHexDigit(c) <==> c in "0123456789abcdef" || c in "0123456789ABCDEF"
    ensures IsHexDigit(c) ==>
              && 0 <= HexValue(c) < 16
              && (c == "0123456789abcdef"[HexValue(c)] || c == "0123456789ABCDEF"[HexValue(c)])
  {
    if IsHexDigit(c) {
      var i := if c <= '9' then c as int - 48 else if c <= 'F' then c as int - 55 else c as int - 87;
      assert c == "0123456789abcdef"[i] || c == "0123456789ABCDEF"[i];
    }
  }

  lemma ToBaseSixteen(a: int, b: int, c: int, d: int)
    requires 0 <= a < 16 && 0 <= b < 16 && 0 <= c < 16 && 0 <= d < 16
    ensures var n := a * 0x1000 + b * 0x100 + c * 0x10 + d;
            n / 0x1000 == a && n / 0x100 % 0x10 == b && n / 0x10 % 0x10 == c && n % 0x10 == d
  {
    var n := a * 0x1000 + b * 0x100 + c * 0x10 + d;
    assert n / 0x10 == a * 0x100 + b * 0x10 + c;
    assert n / 0x100 == a * 0x10 + b;
  }

  lemma FromBaseSixteen(n: int)
    requires n >= 0
    ensures n == n / 0x1000 * 0x1000 + n / 0x100 % 0x10 * 0x100 + n / 0x10 % 0x10 * 0x10 + n % 0x10
  {
    assert n / 0x10 / 0x10 == n / 0x100 && n / 0x100 / 0x10 == n / 0x1000;
  }

  lemma SameDigits(a: int, b: int, c: int, d: int, n: int)
    requires 0 <= a < 16 && 0 <= b < 16 && 0 <= c < 16 && 0 <= d < 16 && n >= 0
    ensures n == a * 0x1000 + b * 0x100 + c * 0x10 + d <==>
              n / 0x1000 == a && n / 0x100 % 0x10 == b && n / 0x10 % 0x10 == c && n % 0x10 == d
  {
    ToBaseSixteen(a, b, c, d);
    FromBaseSixteen(n);
  }

  /** A \uXXXX denotes the code point whose digits to the base of 16 it spells. */
  lemma SpellsCode(hex: string, code: nat)
    requires WellFormedUnit(Unicode(hex))
    ensures CodeOf(Unicode(hex)) == code <==>
              && HexValue(hex[0]) == code / 0x1000 && HexValue(hex[1]) == code / 0x100 % 0x10
              && HexValue(hex[2]) == code / 0x10 % 0x10 && HexValue(hex[3]) == code % 0x10
  {
    forall i | 0 <= i < 4 ensures 0 <= HexValue(hex[i]) < 16 {
      HexDigits(hex[i]);
    }
    SameDigits(HexValue(hex[0]), HexValue(hex[1]), HexValue(hex[2]), HexValue(hex[3]), code);
    hide HexValue, IsHexDigit;
  }

  /** The characters a string denotes, as code points; a \uXXXX counts as one of its own. */
  function Denotes(us: seq<Unit>): seq<int>
    requires WellFormedUnits(us)
  {
    if us == [] then [] else [CodeOf(us[0])] + Denotes(us[1..])
  }

  function CodesOf(s: string): seq<int> {
    seq(|s|, i requires 0 <= i < |s| => s[i] as int)
  }

  /** A string of plain characters: no escape in it. */
  predicate AllPlain(us: seq<Unit>) {
    forall i :: 0 <= i < |us| ==> us[i].Plain?
  }

  lemma NoCodes()
    ensures CodesOf("") == []
  {
  }

  lemma CodesFirst(c: char, s: string)
    ensures CodesOf([c] + s) == [c as int] + CodesOf(s)
  {
  }

  lemma CodesInjective(s: string, t: string)
    requires CodesOf(s) == CodesOf(t)
    ensures s == t
  {
    assert |CodesOf(s)| == |s| && |CodesOf(t)| == |t|;
    forall i | 0 <= i < |s| ensures s[i] == t[i] {
      assert CodesOf(s)[i] == CodesOf(t)[i];
    }
  }

  /** A text of plain characters. */
  function Letters(s: string): (us: seq<Unit>)
    requires forall i :: 0 <= i < |s| ==> WellFormedUnit(Plain(s[i]))
    ensures WellFormedUnits(us) && AllPlain(us)
  {
    seq(|s|, i requires 0 <= i < |s| => Plain(s[i]))
  }

  lemma {:induction false} PlainTextLength(us: seq<Unit>)
    requires AllPlain(us)
    ensures |UnitsText(us, "")| == |us|
    ensures forall i :: 0 <= i < |us| ==> UnitsText(us, "")[i] == us[i].c
  {
    if us != [] {
      PlainTextLength(us[1..]);
    }
  }

  /** What plain characters denote is their text. */
  lemma {:induction false} PlainTextDenotes(us: seq<Unit>)
    requires WellFormedUnits(us) && AllPlain(us)
    ensures Denotes(us) == CodesOf(UnitsText(us, ""))
  {
    hide CodesOf;
    if us == [] {
      NoCodes();
    } else {
      PlainTextDenotes(us[1..]);
      CodesFirst(us[0].c, UnitsText(us[1..], ""));
    }
  }

  lemma {:induction false} DenotesConcat(a: seq<Unit>, b: seq<Unit>)
    requires WellFormedUnits(a) && WellFormedUnits(b) && WellFormedUnits(a + b)
    ensures Denotes(a + b) == Denotes(a) + Denotes(b)
  {
    hide CodeOf, WellFormedUnits;
    if a == [] {
      assert a + b == b;
    } else {
      assert (a + b)[1..] == a[1..] + b && (a + b)[0] == a[0];
      TailsWellFormed(a);
      TailsWellFormed(a + b);
      DenotesConcat(a[1..], b);
      assert [CodeOf(a[0])] + (Denotes(a[1..]) + Denotes(b)) == [CodeOf(a[0])] + Denotes(a[1..]) + Denotes(b);
    }
  }

  lemma TailsWellFormed(us: seq<Unit>)
    requires WellFormedUnits(us) && us != []
    ensures WellFormedUnit(us[0]) && WellFormedUnits(us[1..])
  {
  }
}
