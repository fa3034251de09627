/** The command decoder (tooling/claude-hooks/block-mainsession-exploration.sh): nine global
    substitutions, guarded by a search for \uXXXX, that are meant to undo JSON string escapes. */
module CommandDecoder {
  import opened Wrappers
  import opened JsonText
  import opened CommandScanner

  const MARK: char := '\U{01}'

  /** gsub(/\\b/, rep): replaces a backslash followed by `b`. */
  function Gsub(b: char, rep: char, s: string): string
    decreases |s|
  {
    if s == "" then ""
    else if |s| >= 2 && s[0] == '\\' && s[1] == b then [rep] + Gsub(b, rep, s[2..])
    else [s[0]] + Gsub(b, rep, s[1..])
  }

  /** gsub(/\001/, "\\") */
  function GsubMark(s: string): string {
    if s == "" then "" else [if s[0] == MARK then '\\' else s[0]] + GsubMark(s[1..])
  }

  function SubstituteAll(raw: string): string {
    var s1 := Gsub('\\', MARK, raw);
    var s2 := Gsub('"', '"', s1);
    var s3 := Gsub('n', '\n', s2);
    var s4 := Gsub('t', '\t', s3);
    var s5 := Gsub('r', '\r', s4);
    var s6 := Gsub('b', '\U{08}', s5);
    var s7 := Gsub('f', '\U{0C}', s6);
    var s8 := Gsub('/', '/', s7);
    GsubMark(s8)
  }

  /** The awk program, rewriting its record in place: it leaves what the raw string denotes. */
  method RunSubstitutions(raw: string) returns (record: string)
    ensures record == SubstituteAll(raw)
    ensures forall us :: WellFormedUnits(us) && NoUnicode(us) && raw == UnitsText(us, "") ==>
              record == Values(us) && CodesOf(record) == Denotes(us)
  {
    forall us | WellFormedUnits(us) && NoUnicode(us) && raw == UnitsText(us, "")
      ensures SubstituteAll(raw) == Values(us) && CodesOf(Values(us)) == Denotes(us)
    {
      SubstitutionsAreOnePass(us);
      ValuesDenote(us);
    }
    hide Gsub, GsubMark;
    record := raw;
    record := Gsub('\\', MARK, record);
    record := Gsub('"', '"', record);
    record := Gsub('n', '\n', record);
    record := Gsub('t', '\t', record);
    record := Gsub('r', '\r', record);
    record := Gsub('b', '\U{08}', record);
    record := Gsub('f', '\U{0C}', record);
    record := Gsub('/', '/', record);
    record := GsubMark(record);
  }

  predicate UnicodeTail(s: string) {
    |s| >= 5 && s[0] == 'u' && forall i :: 1 <= i < 5 ==> IsHexDigit(s[i])
  }

  /** grep -qE '\\u[0-9a-fA-F]{4}' */
  predicate HasUnicodeEscape(s: string) {
    s != "" && ((s[0] == '\\' && UnicodeTail(s[1..])) || HasUnicodeEscape(s[1..]))
  }

  /** Command substitution strips the newlines at the end. */
  function StripNewlines(s: string): string {
    if s != "" && s[|s| - 1] == '\n' then StripNewlines(s[..|s| - 1]) else s
  }

  datatype Decoded = Denied | Command(text: string)

  /** From the scanner's output to the command that is checked. */
  function DecodeCommand(printed: Option<string>): Decoded {
    if printed.None? || printed.value == "" then Denied
    else if HasUnicodeEscape(printed.value) then Denied
    else Command(StripNewlines(SubstituteAll(printed.value)))
  }

  // -------------------------------------------------------------------------
  // The reference: one pass from left to right.
  // -------------------------------------------------------------------------

  function Unescape(s: string): string
    decreases |s|
  {
    if s == "" then ""
    else if s[0] == '\\' && |s| >= 2 then [EscapeValue(s[1])] + Unescape(s[2..])
    else [s[0]] + Unescape(s[1..])
  }

  predicate NoUnicode(us: seq<Unit>) {
    forall i :: 0 <= i < |us| ==> !us[i].Unicode?
  }

  function UnitValue(u: Unit): char
    requires !u.Unicode?
  {
    if u.Plain? then u.c else EscapeValue(u.c)
  }

  function Values(us: seq<Unit>): (s: string)
    requires NoUnicode(us)
    ensures |s| == |us|
  {
    seq(|us|, i requires 0 <= i < |us| => UnitValue(us[i]))
  }

  lemma ValueDenotes(u: Unit)
    requires WellFormedUnit(u) && !u.Unicode?
    ensures UnitValue(u) as int == CodeOf(u)
  {
  }

  /** Without \uXXXX, the values of the units are what the string denotes. */
  lemma {:induction false} ValuesDenote(us: seq<Unit>)
    requires WellFormedUnits(us) && NoUnicode(us)
    ensures CodesOf(Values(us)) == Denotes(us)
  {
    hide CodesOf, CodeOf, UnitValue, WellFormedUnit;
    if us == [] {
      NoCodes();
    } else {
      ValuesDenote(us[1..]);
      assert Values(us) == [UnitValue(us[0])] + Values(us[1..]);
      CodesFirst(UnitValue(us[0]), Values(us[1..]));
      ValueDenotes(us[0]);
    }
  }

  lemma {:induction false} UnescapeUnits(us: seq<Unit>)
    requires WellFormedUnits(us) && NoUnicode(us)
    ensures Unescape(UnitsText(us, "")) == Values(us)
  {
    if us != [] {
      UnescapeUnits(us[1..]);
      var tail := UnitsText(us[1..], "");
      assert Values(us) == [UnitValue(us[0])] + Values(us[1..]);
      match us[0] {
        case Plain(c) => assert ([c] + tail)[1..] == tail;
        case Escape(c) => assert (['\\', c] + tail)[2..] == tail;
      }
    }
  }

  // -------------------------------------------------------------------------
  // Between two substitutions the record is a row of cells: characters already
  // decoded, and escapes still pending.
  // -------------------------------------------------------------------------

  datatype Cell = Done(c: char) | Pending(c: char)

  predicate Good(cells: seq<Cell>) {
    forall i :: 0 <= i < |cells| ==> cells[i].c != '\\'
  }

  function Show(cells: seq<Cell>): string {
    if cells == [] then ""
    else (if cells[0].Done? then [cells[0].c] else ['\\', cells[0].c]) + Show(cells[1..])
  }

  function ResolveCell(b: char, rep: char, cell: Cell): Cell {
    if cell == Pending(b) then Done(rep) else cell
  }

  function Resolve(b: char, rep: char, cells: seq<Cell>): seq<Cell> {
    seq(|cells|, i requires 0 <= i < |cells| => ResolveCell(b, rep, cells[i]))
  }

  lemma GsubStep(b: char, rep: char, c: char, t: string)
    requires c != '\\'
    ensures Gsub(b, rep, [c] + t) == [c] + Gsub(b, rep, t)
  {
    assert ([c] + t)[1..] == t;
  }

  lemma GsubPending(b: char, rep: char, c: char, t: string)
    requires c != '\\' && b != '\\'
    ensures Gsub(b, rep, ['\\', c] + t) == (if c == b then [rep] else ['\\', c]) + Gsub(b, rep, t)
  {
    var s := ['\\', c] + t;
    assert s[2..] == t;
    if c != b {
      assert s[1..] == [c] + t;
      GsubStep(b, rep, c, t);
    }
  }

  /** A substitution decodes its own escapes and touches nothing else. */
  lemma {:induction false} GsubResolves(b: char, rep: char, cells: seq<Cell>)
    requires Good(cells) && b != '\\' && rep != '\\'
    ensures Gsub(b, rep, Show(cells)) == Show(Resolve(b, rep, cells)) && Good(Resolve(b, rep, cells))
  {
    if cells != [] {
      GsubResolves(b, rep, cells[1..]);
      assert Resolve(b, rep, cells)[1..] == Resolve(b, rep, cells[1..]);
      if cells[0].Done? {
        GsubStep(b, rep, cells[0].c, Show(cells[1..]));
      } else {
        GsubPending(b, rep, cells[0].c, Show(cells[1..]));
      }
    }
  }

  function CellOf(u: Unit): Cell
    requires !u.Unicode?
  {
    match u
    case Plain(c) => Done(c)
    case Escape(c) => if c == '\\' then Done(MARK) else Pending(c)
  }

  function CellsOf(us: seq<Unit>): seq<Cell>
    requires NoUnicode(us)
  {
    seq(|us|, i requires 0 <= i < |us| => CellOf(us[i]))
  }

  lemma FirstUnit(u: Unit, tail: string)
    requires WellFormedUnit(u) && !u.Unicode?
    ensures Gsub('\\', MARK, UnitText(u) + tail) ==
            (if CellOf(u).Done? then [CellOf(u).c] else ['\\', CellOf(u).c]) + Gsub('\\', MARK, tail)
  {
    match u {
      case Plain(c) => GsubStep('\\', MARK, c, tail);
      case Escape(c) =>
        var s := ['\\', c] + tail;
        assert s[2..] == tail;
        if c != '\\' {
          assert s[1..] == [c] + tail;
          GsubStep('\\', MARK, c, tail);
        }
    }
  }

  /** The first substitution consumes pairs of backslashes exactly where units begin. */
  lemma {:induction false} FirstSubstitution(us: seq<Unit>)
    requires WellFormedUnits(us) && NoUnicode(us)
    ensures Gsub('\\', MARK, UnitsText(us, "")) == Show(CellsOf(us))
  {
    if us != [] {
      hide Gsub, UnitText, CellOf;
      FirstSubstitution(us[1..]);
      FirstUnit(us[0], UnitsText(us[1..], ""));
      assert CellsOf(us)[1..] == CellsOf(us[1..]);
    }
  }

  lemma {:induction false} LastSubstitution(cells: seq<Cell>)
    requires forall i :: 0 <= i < |cells| ==> cells[i].Done?
    ensures |GsubMark(Show(cells))| == |cells|
    ensures forall i :: 0 <= i < |cells| ==>
              GsubMark(Show(cells))[i] == if cells[i].c == MARK then '\\' else cells[i].c
  {
    if cells != [] {
      LastSubstitution(cells[1..]);
      assert ([cells[0].c] + Show(cells[1..]))[1..] == Show(cells[1..]);
    }
  }

  function ResolveAll(cells: seq<Cell>): seq<Cell> {
    Resolve('/', '/', Resolve('f', '\U{0C}', Resolve('b', '\U{08}', Resolve('r', '\r',
      Resolve('t', '\t', Resolve('n', '\n', Resolve('"', '"', cells)))))))
  }

  lemma MiddleSubstitutions(raw: string, cells: seq<Cell>)
    requires Good(cells) && Gsub('\\', MARK, raw) == Show(cells)
    ensures SubstituteAll(raw) == GsubMark(Show(ResolveAll(cells)))
  {
    GsubResolves('"', '"', cells);
    var c2 := Resolve('"', '"', cells);
    GsubResolves('n', '\n', c2);
    var c3 := Resolve('n', '\n', c2);
    GsubResolves('t', '\t', c3);
    var c4 := Resolve('t', '\t', c3);
    GsubResolves('r', '\r', c4);
    var c5 := Resolve('r', '\r', c4);
    GsubResolves('b', '\U{08}', c5);
    var c6 := Resolve('b', '\U{08}', c5);
    GsubResolves('f', '\U{0C}', c6);
    var c7 := Resolve('f', '\U{0C}', c6);
    GsubResolves('/', '/', c7);
  }

  /** The nine substitutions equal the single pass on every raw string without \uXXXX. */
  lemma SubstitutionsAreOnePass(us: seq<Unit>)
    requires WellFormedUnits(us) && NoUnicode(us)
    ensures SubstituteAll(UnitsText(us, "")) == Unescape(UnitsText(us, "")) == Values(us)
  {
    var cells := CellsOf(us);
    FirstSubstitution(us);
    assert Good(cells) by {
      forall i | 0 <= i < |cells| ensures cells[i].c != '\\' {
        assert WellFormedUnit(us[i]);
      }
    }
    MiddleSubstitutions(UnitsText(us, ""), cells);
    var final := ResolveAll(cells);
    forall i | 0 <= i < |us|
      ensures final[i].Done? && (if final[i].c == MARK then '\\' else final[i].c) == Values(us)[i]
    {
      assert WellFormedUnit(us[i]);
      ResolveOne(us, i);
    }
    LastSubstitution(final);
    UnescapeUnits(us);
  }

  lemma ResolveOne(us: seq<Unit>, i: nat)
    requires WellFormedUnits(us) && NoUnicode(us) && i < |us|
    ensures |ResolveAll(CellsOf(us))| == |us|
    ensures var cell := ResolveAll(CellsOf(us))[i];
            cell.Done? && (if cell.c == MARK then '\\' else cell.c) == UnitValue(us[i])
  {
    assert WellFormedUnit(us[i]);
    var cell := CellOf(us[i]);
    assert CellsOf(us)[i] == cell;
  }

  // -------------------------------------------------------------------------
  // The guard.
  // -------------------------------------------------------------------------

  lemma {:induction false} GuardSeesUnicode(us: seq<Unit>)
    requires WellFormedUnits(us) && !HasUnicodeEscape(UnitsText(us, ""))
    ensures NoUnicode(us)
  {
    if us != [] {
      var tail := UnitsText(us[1..], "");
      GuardSuffix(UnitText(us[0]), tail);
      GuardSeesUnicode(us[1..]);
    }
  }

  lemma {:induction false} GuardSuffix(w: string, t: string)
    requires !HasUnicodeEscape(w + t)
    ensures !HasUnicodeEscape(t)
  {
    if w == "" {
      assert w + t == t;
    } else {
      assert (w + t)[1..] == w[1..] + t;
      GuardSuffix(w[1..], t);
    }
  }

  predicate Newlines(t: string) {
    forall i :: 0 <= i < |t| ==> t[i] == '\n'
  }

  /** A command without the newlines at its end. */
  predicate EndsClean(w: string) {
    w == "" || w[|w| - 1] != '\n'
  }

  /** Exactly the newlines at the end are stripped. */
  lemma {:induction false} StripsFinalNewlines(w: string, t: string)
    requires EndsClean(w) && Newlines(t)
    ensures StripNewlines(w + t) == w
  {
    if t == "" {
      assert w + t == w;
    } else {
      assert (w + t)[..|w + t| - 1] == w + t[..|t| - 1];
      StripsFinalNewlines(w, t[..|t| - 1]);
    }
  }

  /** Every text is one that ends clean and newlines behind it. */
  lemma {:induction false} FinalNewlines(s: string) returns (w: string, t: string)
    ensures s == w + t && EndsClean(w) && Newlines(t)
  {
    if EndsClean(s) {
      w, t := s, "";
    } else {
      w, t := FinalNewlines(s[..|s| - 1]);
      t := t + "\n";
      assert s == s[..|s| - 1] + "\n";
    }
  }

  lemma RawIsEmpty(us: seq<Unit>)
    ensures UnitsText(us, "") == "" <==> us == []
  {
  }

  /** What the guard lets through is decoded to the values of its units. */
  lemma DecodedValues(us: seq<Unit>)
    requires WellFormedUnits(us) && us != [] && !HasUnicodeEscape(UnitsText(us, ""))
    ensures NoUnicode(us)
    ensures DecodeCommand(Some(UnitsText(us, ""))) == Command(StripNewlines(Values(us)))
  {
    hide HasUnicodeEscape, SubstituteAll, Unescape, UnitsText, StripNewlines, Values, WellFormedUnits, NoUnicode;
    GuardSeesUnicode(us);
    RawIsEmpty(us);
    SubstitutionsAreOnePass(us);
  }

  /** Every command the guard lets through is the text the JSON string denotes, less the newlines at
      its end. */
  lemma DecodedCommand(us: seq<Unit>, w: string, t: string)
    requires WellFormedUnits(us) && us != [] && !HasUnicodeEscape(UnitsText(us, ""))
    requires Denotes(us) == CodesOf(w + t) && EndsClean(w) && Newlines(t)
    ensures DecodeCommand(Some(UnitsText(us, ""))) == Command(w)
  {
    hide HasUnicodeEscape, UnitsText, StripNewlines, Values, WellFormedUnits, NoUnicode, CodesOf, DecodeCommand;
    DecodedValues(us);
    ValuesDenote(us);
    CodesInjective(Values(us), w + t);
    StripsFinalNewlines(w, t);
  }

  /** And what the guard lets through always denotes such a text. */
  lemma DecodableText(us: seq<Unit>) returns (w: string, t: string)
    requires WellFormedUnits(us) && !HasUnicodeEscape(UnitsText(us, ""))
    ensures Denotes(us) == CodesOf(w + t) && EndsClean(w) && Newlines(t)
  {
    GuardSeesUnicode(us);
    ValuesDenote(us);
    w, t := FinalNewlines(Values(us));
  }

  // -------------------------------------------------------------------------
  // Printing a command as a JSON string, extracting and decoding it.
  // -------------------------------------------------------------------------

  /** The characters with a printed form other than \uXXXX. */
  predicate Printable(c: char) {
    ' ' <= c || c == '\n' || c == '\t' || c == '\r' || c == '\U{08}' || c == '\U{0C}'
  }

  predicate AllPrintable(s: string) {
    forall i :: 0 <= i < |s| ==> Printable(s[i])
  }

  const HEX: string := "0123456789abcdef"

  function ControlUnit(c: char): Unit {
    Unicode(['0', '0', if c as int < 16 then '0' else '1', HEX[c as int % 16]])
  }

  /** The printer of JSON strings: every other control character becomes \u00hh. */
  function PrintChar(c: char): Unit {
    match c
    case '"' => Escape('"')
    case '\\' => Escape('\\')
    case '\n' => Escape('n')
    case '\t' => Escape('t')
    case '\r' => Escape('r')
    case '\U{08}' => Escape('b')
    case '\U{0C}' => Escape('f')
    case _ =>
      if ' ' <= c then Plain(c) else ControlUnit(c)
  }

  function PrintString(s: string): seq<Unit> {
    seq(|s|, i requires 0 <= i < |s| => PrintChar(s[i]))
  }

  lemma LowerHexValue(n: int)
    requires 0 <= n < 16
    ensures IsHexDigit(HEX[n]) && HexValue(HEX[n]) == n
  {
    if n < 10 {
      assert HEX[n] as int == 48 + n;
    } else {
      assert HEX[n] as int == 87 + n;
    }
  }

  lemma ControlIsUnicode(c: char)
    ensures ControlUnit(c).Unicode?
  {
  }

  lemma PrintedControl(c: char)
    requires c < ' '
    ensures WellFormedUnit(ControlUnit(c)) && CodeOf(ControlUnit(c)) == c as int
  {
    hide IsHexDigit, HexValue;
    LowerHexValue(c as int % 16);
    assert HEX[0] == '0' && HEX[1] == '1';
    LowerHexValue(0);
    LowerHexValue(1);
  }

  lemma PrintedChar(c: char)
    ensures WellFormedUnit(PrintChar(c)) && CodeOf(PrintChar(c)) == c as int
    ensures PrintChar(c).Unicode? <==> !Printable(c)
  {
    hide ControlUnit, HexValue;
    if c < ' ' {
      PrintedControl(c);
      assert ControlUnit(c).Unicode? by { ControlIsUnicode(c); }
    }
  }

  /** The printer prints strings of JSON, each denoting what was printed, and uses \uXXXX exactly
      where it must. */
  lemma {:induction false} PrintedUnits(s: string)
    ensures WellFormedUnits(PrintString(s)) && Denotes(PrintString(s)) == CodesOf(s)
    ensures NoUnicode(PrintString(s)) <==> AllPrintable(s)
  {
    hide PrintChar, Printable, CodeOf, WellFormedUnit;
    if s != "" {
      PrintedChar(s[0]);
      PrintedUnits(s[1..]);
      var us := PrintString(s);
      assert us[1..] == PrintString(s[1..]);
      assert us == [PrintChar(s[0])] + us[1..] && s == [s[0]] + s[1..];
    }
  }

  lemma PrintedValues(s: string)
    requires AllPrintable(s)
    ensures NoUnicode(PrintString(s)) && Values(PrintString(s)) == s
  {
    PrintedUnits(s);
    ValuesDenote(PrintString(s));
    CodesInjective(Values(PrintString(s)), s);
  }

  /** Where a text of plain characters starts the printed string, it starts the string. */
  lemma {:induction false} PlainPrefix(w: string, s: string)
    requires forall i :: 0 <= i < |w| ==> PrintChar(w[i]) == Plain(w[i])
    ensures w <= UnitsText(PrintString(s), "") <==> w <= s
  {
    if w != "" && s != "" {
      PlainPrefix(w[1..], s[1..]);
      assert PrintString(s)[1..] == PrintString(s[1..]);
      var raw := UnitsText(PrintString(s), "");
      var tail := UnitsText(PrintString(s[1..]), "");
      assert w <= s <==> w[0] == s[0] && w[1..] <= s[1..] by { PrefixStep(w, s); }
      PrefixStep(w, raw);
      if PrintChar(s[0]).Plain? {
        assert raw[1..] == tail;
      } else {
        assert raw[0] == '\\';
      }
    }
  }

  lemma PrefixStep(w: string, s: string)
    requires w != "" && s != ""
    ensures w <= s <==> w[0] == s[0] && w[1..] <= s[1..]
  {
    if w[0] == s[0] && w[1..] <= s[1..] {
      assert w == [w[0]] + w[1..] && s == [s[0]] + s[1..];
      assert forall i :: 1 <= i < |w| ==> w[i] == w[1..][i - 1] == s[1..][i - 1] == s[i];
    }
    if w <= s {
      assert forall i :: 0 <= i < |w[1..]| ==> w[1..][i] == w[i + 1] == s[i + 1] == s[1..][i];
    }
  }

  lemma PrintedTail(s: string)
    ensures UnicodeTail(UnitsText(PrintString(s), "")) <==> UnicodeTail(s)
  {
    var raw := UnitsText(PrintString(s), "");
    if UnicodeTail(raw) {
      PlainPrefix(raw[..5], s);
      assert s[..5] == raw[..5];
      assert forall i :: 0 <= i < 5 ==> s[i] == s[..5][i] == raw[..5][i];
    }
    if UnicodeTail(s) {
      PlainPrefix(s[..5], s);
      assert raw[..5] == s[..5];
      assert forall i :: 0 <= i < 5 ==> raw[i] == raw[..5][i] == s[..5][i];
    }
  }

  /** The guard fires on a printed command exactly when the command itself spells \uXXXX or has a
      character that is printed as one. */
  lemma {:induction false} GuardOnPrinted(s: string)
    ensures HasUnicodeEscape(UnitsText(PrintString(s), "")) <==> HasUnicodeEscape(s) || !AllPrintable(s)
  {
    if s != "" {
      GuardOnPrinted(s[1..]);
      PrintedTail(s[1..]);
      assert PrintString(s)[1..] == PrintString(s[1..]);
      var tail := UnitsText(PrintString(s[1..]), "");
      assert AllPrintable(s) <==> Printable(s[0]) && AllPrintable(s[1..]) by { PrintableFirst(s); }
      hide AllPrintable, PrintString;
      GuardOnUnit(s[0], tail);
      assert UnitsText(PrintString(s), "") == UnitText(PrintChar(s[0])) + tail;
    }
  }

  lemma PrintableFirst(s: string)
    requires s != ""
    ensures AllPrintable(s) <==> Printable(s[0]) && AllPrintable(s[1..])
  {
    if Printable(s[0]) && AllPrintable(s[1..]) {
      forall i | 0 <= i < |s| ensures Printable(s[i]) {
        assert i > 0 ==> s[i] == s[1..][i - 1];
      }
    }
  }

  /** One printed character in front of a text: the guard fires on a backslash that is followed by a
      tail of \uXXXX, or on the character's own \u00hh. */
  lemma GuardOnUnit(c: char, tail: string)
    ensures HasUnicodeEscape(UnitText(PrintChar(c)) + tail) <==>
            !Printable(c) || (c == '\\' && UnicodeTail(tail)) || HasUnicodeEscape(tail)
  {
    var u := PrintChar(c);
    var raw := UnitText(u) + tail;
    match u {
      case Plain(_) =>
        assert raw[1..] == tail;
      case Escape(e) =>
        assert raw[1..] == [e] + tail && raw[1..][1..] == tail;
      case Unicode(hex) =>
        PrintedChar(c);
        assert raw[1..] == ['u'] + hex + tail;
        assert UnicodeTail(raw[1..]);
    }
  }

  /** From the tool input to the command, however its string is printed: an empty one and one with
      \uXXXX are denied; of any other, what it denotes comes out, less the newlines at its end. */
  lemma ExtractedCommand(us: seq<Unit>, w: string, t: string, before: string, v: Json, a: string, c: char, more: string)
    requires White(before) && WellFormed(v) && White(a) && Closes(c) && WellFormedUnits(us)
    requires FirstCommand(v) == Some(us)
    requires HasUnicodeEscape(UnitsText(us, "")) || (Denotes(us) == CodesOf(w + t) && EndsClean(w) && Newlines(t))
    ensures DecodeCommand(Scan(Seeking(""), before + ValueText(v, a + ([c] + more)))) ==
            if us == [] || HasUnicodeEscape(UnitsText(us, "")) then Denied else Command(w)
  {
    hide SubstituteAll, Scan, HasUnicodeEscape, StripNewlines, ValueText;
    ScannerFindsFirstCommand(before, v, a, c, more);
    RawIsEmpty(us);
    if us != [] && !HasUnicodeEscape(UnitsText(us, "")) {
      DecodedCommand(us, w, t);
    }
  }

  /** A tool input without a command is denied, when nothing behind it is taken for one. */
  lemma NoCommandIsDenied(before: string, v: Json, a: string, c: char, more: string)
    requires White(before) && WellFormed(v) && White(a) && Closes(c)
    requires FirstCommand(v).None? && Scan(Seeking(""), more).None?
    ensures DecodeCommand(Scan(Seeking(""), before + ValueText(v, a + ([c] + more)))) == Denied
  {
    hide Scan, ValueText;
    ScannerFindsFirstCommand(before, v, a, c, more);
  }

  /** A command that stands, printed, as the first one of the tool input comes back unchanged if and
      only if it is not empty, has no character that JSON prints as \uXXXX, does not spell \uXXXX
      itself and does not end in a newline. */
  lemma CommandComesBack(s: string, before: string, v: Json, a: string, c: char, t: string)
    requires White(before) && WellFormed(v) && White(a) && Closes(c)
    requires FirstCommand(v) == Some(PrintString(s))
    ensures DecodeCommand(Scan(Seeking(""), before + ValueText(v, a + ([c] + t)))) == Command(s)
            <==> s != "" && AllPrintable(s) && !HasUnicodeEscape(s) && s[|s| - 1] != '\n'
  {
    hide SubstituteAll, Scan, HasUnicodeEscape, StripNewlines, ValueText, UnitsText, DecodeCommand;
    hide AllPrintable, Values, FirstCommand, WellFormed, WellFormedUnits, NoUnicode, CodesOf, Denotes;
    PrintedUnits(s);
    GuardOnPrinted(s);
    var w, tail := FinalNewlines(s);
    ExtractedCommand(PrintString(s), w, tail, before, v, a, c, t);
    CleanIff(w, tail);
  }

  lemma CleanIff(w: string, t: string)
    requires EndsClean(w) && Newlines(t)
    ensures w == w + t <==> EndsClean(w + t)
  {
    if t == "" {
      assert w + t == w;
    } else {
      assert (w + t)[|w + t| - 1] == t[|t| - 1] && |w + t| != |w|;
    }
  }
}
