/** The key scanner (tooling/claude-hooks/lib/extract-command.awk): one loop over the characters
    that looks for "command", a colon and a quote, and copies the raw string that follows. */
module CommandScanner {
  import opened Wrappers
  import opened JsonText

  const PATTERN: string := "\"command\""

  datatype State =
    | Seeking(window: string)
    | SeenKey
    | SeenColon
    | InString(escaped: bool, result: string)

  datatype Outcome = Next(state: State) | Emit(result: string)

  function LastNine(s: string): (w: string)
    ensures |w| <= 9
  {
    if |s| > 9 then s[|s| - 9..] else s
  }

  function Step(st: State, c: char): Outcome {
    match st
    case Seeking(window) =>
      if LastNine(window + [c]) == PATTERN then Next(SeenKey) else Next(Seeking(LastNine(window + [c])))
    case SeenKey =>
      if c == ':' then Next(SeenColon) else if IsWhite(c) then Next(SeenKey) else Next(Seeking(""))
    case SeenColon =>
      if c == '"' then Next(InString(false, "")) else if IsWhite(c) then Next(SeenColon) else Next(Seeking(""))
    case InString(escaped, result) =>
      if escaped then Next(InString(false, result + ['\\', c]))
      else if c == '\\' then Next(InString(true, result))
      else if c == '"' then Emit(result)
      else Next(InString(false, result + [c]))
  }

  /** What is printed when the scanner reads `text` in state `st`; None when nothing is. */
  function Scan(st: State, text: string): Option<string>
    decreases |text|
  {
    if text == "" then None
    else
      var o := Step(st, text[0]);
      if o.Emit? then Some(o.result) else Scan(o.state, text[1..])
  }

  function StateOf(state: int, window: string, escaped: bool, result: string): State {
    if state == 0 then Seeking(window) else if state == 1 then SeenKey
    else if state == 2 then SeenColon else InString(escaped, result)
  }

  /** The loop, over one input record. */
  method ExtractCommand(text: string) returns (printed: Option<string>)
    ensures printed == Scan(Seeking(""), text)
  {
    var state, window, escaped, result := 0, "", false, "";
    var i := 0;
    while i < |text|
      invariant 0 <= i <= |text| && 0 <= state <= 3
      invariant state < 3 ==> !escaped && result == ""
      invariant |window| <= 9
      invariant Scan(Seeking(""), text) == Scan(StateOf(state, window, escaped, result), text[i..])
    {
      var c := text[i];
      assert text[i..][0] == c && text[i..][1..] == text[i + 1..];
      if state == 0 {
        window := window + [c];
        if |window| > 9 {
          window := window[|window| - 9..];
        }
        if window == PATTERN {
          state, window := 1, "";
        }
      } else if state == 1 {
        if c == ':' {
          state := 2;
        } else if c != ' ' && c != '\t' && c != '\n' && c != '\r' {
          state, window := 0, "";
        }
      } else if state == 2 {
        if c == '"' {
          state := 3;
        } else if c != ' ' && c != '\t' && c != '\n' && c != '\r' {
          state, window := 0, "";
        }
      } else if escaped {
        assert result + "\\" + [c] == result + ['\\', c];
        result, escaped := result + "\\" + [c], false;
      } else if c == '\\' {
        escaped := true;
      } else if c == '"' {
        return Some(result);
      } else {
        result := result + [c];
      }
      i := i + 1;
    }
    printed := None;
  }

  // -------------------------------------------------------------------------
  // Seeking depends on the last nine characters only, and forgets at every
  // character that is not in the pattern.
  // -------------------------------------------------------------------------

  function Seek(history: string, text: string): Option<string> {
    Scan(Seeking(LastNine(history)), text)
  }

  lemma SeekStep(h: string, c: char, t: string)
    ensures Seek(h, [c] + t) == if LastNine(h + [c]) == PATTERN then Scan(SeenKey, t) else Seek(h + [c], t)
  {
    assert ([c] + t)[1..] == t;
    assert LastNine(LastNine(h) + [c]) == LastNine(h + [c]);
  }

  lemma {:induction false} SeekRun(h: string, w: string, t: string)
    requires '"' !in w
    ensures Seek(h, w + t) == Seek(h + w, t)
    decreases |w|
  {
    hide Seek, LastNine;
    if w == "" {
      assert w + t == t && h + w == h;
    } else {
      SeekStep(h, w[0], w[1..] + t);
      NoMatch(h, w[0]);
      assert w + t == [w[0]] + (w[1..] + t);
      SeekRun(h + [w[0]], w[1..], t);
      assert h + [w[0]] + w[1..] == h + w;
    }
  }

  lemma NoMatch(h: string, c: char)
    requires c != '"'
    ensures LastNine(h + [c]) != PATTERN
  {
    var w := LastNine(h + [c]);
    assert w[|w| - 1] == c;
    assert PATTERN[8] == '"';
  }

  predicate Quiet(c: char) {
    c !in PATTERN
  }

  lemma {:induction false} Forget(h: string, c: char, x: string, t: string)
    requires Quiet(c)
    ensures Seek(h + [c] + x, t) == Seek(x, t)
    decreases |t|
  {
    if t != "" {
      var h' := h + [c] + x;
      SeekStep(h', t[0], t[1..]);
      SeekStep(x, t[0], t[1..]);
      assert t == [t[0]] + t[1..];
      assert h' + [t[0]] == h + [c] + (x + [t[0]]);
      Forget(h, c, x + [t[0]], t[1..]);
      SameMatch(h, c, x + [t[0]]);
    }
  }

  lemma SameMatch(h: string, c: char, x: string)
    requires Quiet(c)
    ensures LastNine(h + [c] + x) == PATTERN <==> LastNine(x) == PATTERN
  {
    var s := h + [c] + x;
    if |x| < 9 && |s| >= 9 {
      assert LastNine(s)[8 - |x|] == c;
    }
  }

  lemma AfterQuiet(h: string, c: char, t: string)
    requires Quiet(c)
    ensures Seek(h, [c] + t) == Seek("", t)
  {
    SeekStep(h, c, t);
    assert LastNine(h + [c])[|LastNine(h + [c])| - 1] == c;
    assert PATTERN[8] == '"';
    Forget(h, c, "", t);
    assert h + [c] + "" == h + [c];
  }

  lemma {:induction false} AfterWhite(w: string, t: string)
    requires White(w)
    ensures Seek("", w + t) == Seek("", t)
  {
    if w == "" {
      assert w + t == t;
    } else {
      AfterQuiet("", w[0], w[1..] + t);
      AfterWhite(w[1..], t);
      assert w + t == [w[0]] + (w[1..] + t);
    }
  }

  // -------------------------------------------------------------------------
  // Tokens.
  // -------------------------------------------------------------------------

  /** A string at whose closing quote the scanner takes it for "command". */
  predicate Hit(us: seq<Unit>) {
    var s := "\"" + UnitsText(us, "");
    |s| >= 8 && s[|s| - 8..] == PATTERN[..8]
  }

  lemma {:induction false} UnitsTextAppend(us: seq<Unit>, r: string)
    ensures UnitsText(us, r) == UnitsText(us, "") + r
  {
    if us != [] {
      UnitsTextAppend(us[1..], r);
      assert UnitText(us[0]) + (UnitsText(us[1..], "") + r) == UnitText(us[0]) + UnitsText(us[1..], "") + r;
    }
  }

  lemma SeekQuote(h: string, c: char, t: string)
    requires c != 'd'
    ensures Seek(h + [c], "\"" + t) == Seek(h + [c] + "\"", t)
  {
    SeekStep(h + [c], '"', t);
    var w := LastNine(h + [c] + ['"']);
    assert |w| >= 2 ==> w[|w| - 2] == c;
    assert PATTERN[7] == 'd';
  }

  lemma SeekUnit(h: string, u: Unit, t: string)
    requires WellFormedUnit(u)
    ensures Seek(h, UnitText(u) + t) == Seek(h + UnitText(u), t)
  {
    hide Seek;
    match u {
      case Plain(c) => SeekRun(h, [c], t);
      case Unicode(hex) => SeekRun(h, UnitText(u), t);
      case Escape(c) =>
        if c == '"' {
          SeekRun(h, "\\", "\"" + t);
          assert UnitText(u) + t == "\\" + ("\"" + t);
          SeekQuote(h, '\\', t);
          assert h + UnitText(u) == h + "\\" + "\"";
        } else {
          SeekRun(h, UnitText(u), t);
        }
    }
  }

  lemma {:induction false} SeekUnits(h: string, us: seq<Unit>, t: string)
    requires WellFormedUnits(us)
    ensures Seek(h, UnitsText(us, t)) == Seek(h + UnitsText(us, ""), t)
    decreases |us|
  {
    hide Seek;
    if us == [] {
      assert h + "" == h;
    } else {
      SeekUnit(h, us[0], UnitsText(us[1..], t));
      SeekUnits(h + UnitText(us[0]), us[1..], t);
      assert h + UnitText(us[0]) + UnitsText(us[1..], "") == h + UnitsText(us, "");
    }
  }

  lemma SeekString(us: seq<Unit>, r: string)
    requires WellFormedUnits(us)
    ensures Seek("", StringText(us, r)) ==
            if Hit(us) then Scan(SeenKey, r) else Seek("\"" + UnitsText(us, "") + "\"", r)
  {
    SeekStep("", '"', UnitsText(us, "\"" + r));
    assert "" + ['"'] == "\"";
    SeekUnits("\"", us, "\"" + r);
    var s := "\"" + UnitsText(us, "");
    SeekStep(s, '"', r);
    if |s| >= 8 {
      EndsWithPattern(s);
    }
  }

  lemma EndsWithPattern(s: string)
    requires |s| >= 8
    ensures LastNine(s + ['"']) == PATTERN <==> s[|s| - 8..] == PATTERN[..8]
  {
    var w := LastNine(s + ['"']);
    assert w == s[|s| - 8..] + ['"'] && PATTERN == PATTERN[..8] + ['"'];
    assert w[..8] == s[|s| - 8..];
  }

  predicate Closes(c: char) {
    c == ',' || c == ']' || c == '}'
  }

  lemma {:induction false} KeyThenNoColon(a: string, c: char, t: string)
    requires White(a) && Closes(c)
    ensures Scan(SeenKey, a + ([c] + t)) == Seek("", t)
  {
    if a == "" {
      assert a + ([c] + t) == [c] + t && ([c] + t)[1..] == t;
    } else {
      KeyThenNoColon(a[1..], c, t);
      assert (a + ([c] + t))[1..] == a[1..] + ([c] + t);
    }
  }

  lemma {:induction false} KeyThenColon(g: string, t: string)
    requires White(g)
    ensures Scan(SeenKey, g + (":" + t)) == Scan(SeenColon, t)
  {
    if g == "" {
      assert g + (":" + t) == ":" + t && (":" + t)[1..] == t;
    } else {
      KeyThenColon(g[1..], t);
      assert (g + (":" + t))[1..] == g[1..] + (":" + t);
    }
  }

  lemma {:induction false} ColonThenWhite(l: string, t: string)
    requires White(l)
    ensures Scan(SeenColon, l + t) == Scan(SeenColon, t)
  {
    if l == "" {
      assert l + t == t;
    } else {
      ColonThenWhite(l[1..], t);
      assert (l + t)[1..] == l[1..] + t;
    }
  }

  /** Past a run without quotes and then a closing character, nothing is remembered. */
  lemma AfterClose(h: string, w: string, a: string, c: char, t: string)
    requires '"' !in w && White(a) && Closes(c)
    ensures Seek(h, w + (a + ([c] + t))) == Seek("", t)
  {
    assert w + (a + ([c] + t)) == (w + a) + ([c] + t);
    SeekRun(h, w + a, [c] + t);
    AfterQuiet(h + (w + a), c, t);
  }

  lemma StepInString(e: bool, res: string, c: char, t: string)
    ensures Scan(InString(e, res), [c] + t) ==
            var o := Step(InString(e, res), c); if o.Emit? then Some(o.result) else Scan(o.state, t)
  {
    assert ([c] + t)[1..] == t;
  }

  lemma {:induction false} CopyPlain(res: string, w: string, t: string)
    requires '"' !in w && '\\' !in w
    ensures Scan(InString(false, res), w + t) == Scan(InString(false, res + w), t)
    decreases |w|
  {
    if w == "" {
      assert w + t == t && res + w == res;
    } else {
      StepInString(false, res, w[0], w[1..] + t);
      assert w + t == [w[0]] + (w[1..] + t);
      CopyPlain(res + [w[0]], w[1..], t);
      assert res + [w[0]] + w[1..] == res + w;
    }
  }

  lemma CopyUnit(res: string, u: Unit, t: string)
    requires WellFormedUnit(u)
    ensures Scan(InString(false, res), UnitText(u) + t) == Scan(InString(false, res + UnitText(u)), t)
  {
    match u {
      case Plain(c) => CopyPlain(res, [c], t);
      case Escape(c) =>
        assert UnitText(u) + t == ['\\'] + ([c] + t);
        StepInString(false, res, '\\', [c] + t);
        StepInString(true, res, c, t);
      case Unicode(hex) =>
        assert UnitText(u) + t == ['\\'] + (['u'] + (hex + t));
        StepInString(false, res, '\\', ['u'] + (hex + t));
        StepInString(true, res, 'u', hex + t);
        CopyPlain(res + ['\\', 'u'], hex, t);
        assert res + ['\\', 'u'] + hex == res + UnitText(u);
    }
  }

  lemma {:induction false} CopyUnits(res: string, us: seq<Unit>, t: string)
    requires WellFormedUnits(us)
    ensures Scan(InString(false, res), UnitsText(us, "\"" + t)) == Some(res + UnitsText(us, ""))
    decreases |us|
  {
    if us == [] {
      StepInString(false, res, '"', t);
      assert res + "" == res;
    } else {
      CopyUnit(res, us[0], UnitsText(us[1..], "\"" + t));
      CopyUnits(res + UnitText(us[0]), us[1..], t);
      assert res + UnitText(us[0]) + UnitsText(us[1..], "") == res + UnitsText(us, "");
    }
  }

  // -------------------------------------------------------------------------
  // Values.
  // -------------------------------------------------------------------------

  /** The first member in text order, at any depth, whose key the scanner takes for "command"
      and whose value is a string: that string. */
  function FirstCommand(v: Json): Option<seq<Unit>> {
    match v
    case Literal(_) => None
    case Text(_) => None
    case Array(_, es) => FirstInElems(es)
    case Object(_, ms) => FirstInMembers(ms)
  }

  function FirstInElems(es: Elems): Option<seq<Unit>> {
    match es
    case NoElems => None
    case Elem(_, v, _, next) => if FirstCommand(v).Some? then FirstCommand(v) else FirstInElems(next)
  }

  function FirstInMembers(ms: Members): Option<seq<Unit>> {
    match ms
    case NoMembers => None
    case Member(_, k, _, _, v, _, next) =>
      if Hit(k) && v.Text? then Some(v.units)
      else if FirstCommand(v).Some? then FirstCommand(v)
      else FirstInMembers(next)
  }

  function Else(found: Option<seq<Unit>>, otherwise: Option<string>): Option<string> {
    if found.Some? then Some(UnitsText(found.value, "")) else otherwise
  }

  lemma {:induction false} ScanValue(v: Json, a: string, c: char, t: string)
    requires WellFormed(v) && White(a) && Closes(c)
    ensures Seek("", ValueText(v, a + ([c] + t))) == Else(FirstCommand(v), Seek("", t))
  {
    hide Seek;
    var r := a + ([c] + t);
    match v {
      case Literal(text) =>
        AfterClose("", text, a, c, t);
      case Text(us) =>
        SeekString(us, r);
        if Hit(us) {
          KeyThenNoColon(a, c, t);
        } else {
          AfterClose("\"" + UnitsText(us, "") + "\"", "", a, c, t);
          assert "" + r == r;
        }
      case Array(pad, es) =>
        AfterQuiet("", '[', pad + ElemsText(es, "]" + r));
        AfterWhite(pad, ElemsText(es, "]" + r));
        ScanElems(es, ']', r);
        AfterWhite(a, [c] + t);
        AfterQuiet("", c, t);
      case Object(pad, ms) =>
        AfterQuiet("", '{', pad + MembersText(ms, "}" + r));
        AfterWhite(pad, MembersText(ms, "}" + r));
        ScanMembers(ms, '}', r);
        AfterWhite(a, [c] + t);
        AfterQuiet("", c, t);
    }
  }

  lemma {:induction false} ScanElems(es: Elems, c: char, t: string)
    requires WellFormedElems(es) && Closes(c)
    ensures Seek("", ElemsText(es, [c] + t)) == Else(FirstInElems(es), Seek("", t))
  {
    hide Seek;
    match es {
      case NoElems => AfterQuiet("", c, t);
      case Elem(b, v, a, next) =>
        var tail := if next.NoElems? then [c] + t else "," + ElemsText(next, [c] + t);
        AfterWhite(b, ValueText(v, a + tail));
        if next.NoElems? {
          ScanValue(v, a, c, t);
        } else {
          ScanValue(v, a, ',', ElemsText(next, [c] + t));
          ScanElems(next, c, t);
        }
    }
  }

  /** After a colon, a value that is not a string is read as from the start. */
  lemma {:induction false} ColonThenValue(v: Json, a: string, c: char, t: string)
    requires WellFormed(v) && !v.Text? && White(a) && Closes(c)
    ensures Scan(SeenColon, ValueText(v, a + ([c] + t))) == Seek("", ValueText(v, a + ([c] + t)))
  {
    var s := ValueText(v, a + ([c] + t));
    match v {
      case Literal(text) =>
        AfterClose("", text, a, c, t);
        AfterClose("", text[1..], a, c, t);
        assert s[1..] == text[1..] + (a + ([c] + t));
      case Array(pad, es) =>
        AfterQuiet("", '[', s[1..]);
        assert s == ['['] + s[1..];
      case Object(pad, ms) =>
        AfterQuiet("", '{', s[1..]);
        assert s == ['{'] + s[1..];
    }
  }

  lemma KeyThenValue(g: string, l: string, v: Json, a: string, c: char, t: string)
    requires White(g) && White(l) && WellFormed(v) && White(a) && Closes(c)
    ensures Scan(SeenKey, g + (":" + (l + ValueText(v, a + ([c] + t))))) ==
            if v.Text? then Some(UnitsText(v.units, "")) else Seek("", ValueText(v, a + ([c] + t)))
  {
    hide Seek;
    var r := a + ([c] + t);
    KeyThenColon(g, l + ValueText(v, r));
    ColonThenWhite(l, ValueText(v, r));
    if v.Text? {
      var s := StringText(v.units, r);
      assert s[1..] == UnitsText(v.units, "\"" + r);
      CopyUnits("", v.units, r);
      assert "" + UnitsText(v.units, "") == UnitsText(v.units, "");
    } else {
      ColonThenValue(v, a, c, t);
    }
  }

  /** Past a key that is not a hit, the value is read as from the start. */
  lemma OtherKeyThenValue(h: string, g: string, l: string, s: string)
    requires White(g) && White(l)
    ensures Seek(h, g + (":" + (l + s))) == Seek("", s)
  {
    hide Seek;
    SeekRun(h, g, ":" + (l + s));
    AfterQuiet(h + g, ':', l + s);
    AfterWhite(l, s);
  }

  lemma {:induction false} ScanMembers(ms: Members, c: char, t: string)
    requires WellFormedMembers(ms) && Closes(c)
    ensures Seek("", MembersText(ms, [c] + t)) == Else(FirstInMembers(ms), Seek("", t))
  {
    hide Seek;
    match ms {
      case NoMembers => AfterQuiet("", c, t);
      case Member(b, k, g, l, v, a, next) =>
        var tail := if next.NoMembers? then [c] + t else "," + MembersText(next, [c] + t);
        var c', t' := if next.NoMembers? then c else ',', if next.NoMembers? then t else MembersText(next, [c] + t);
        assert tail == [c'] + t';
        var text := ValueText(v, a + tail);
        AfterWhite(b, StringText(k, g + (":" + (l + text))));
        SeekString(k, g + (":" + (l + text)));
        if Hit(k) {
          KeyThenValue(g, l, v, a, c', t');
        } else {
          OtherKeyThenValue("\"" + UnitsText(k, "") + "\"", g, l, text);
        }
        ScanValue(v, a, c', t');
        if !next.NoMembers? {
          ScanMembers(next, c, t);
        }
    }
  }

  /** On every JSON value followed by more JSON, the scanner copies the raw text of the first
      string under a key it takes for "command", and passes the value without printing when there
      is none. */
  lemma ScannerFindsFirstCommand(before: string, v: Json, a: string, c: char, t: string)
    requires White(before) && WellFormed(v) && White(a) && Closes(c)
    ensures Scan(Seeking(""), before + ValueText(v, a + ([c] + t))) ==
            if FirstCommand(v).Some? then Some(UnitsText(FirstCommand(v).value, "")) else Scan(Seeking(""), t)
  {
    AfterWhite(before, ValueText(v, a + ([c] + t)));
    ScanValue(v, a, c, t);
  }

  // -------------------------------------------------------------------------
  // Keys.
  // -------------------------------------------------------------------------

  lemma HitOfPlainText(raw: string)
    requires '"' !in raw
    ensures (var s := "\"" + raw; |s| >= 8 && s[|s| - 8..] == PATTERN[..8]) <==> raw == "command"
  {
    var s := "\"" + raw;
    assert PATTERN[..8] == "\"" + "command";
    if |s| >= 8 && s[|s| - 8..] == PATTERN[..8] {
      assert s[|s| - 8] == s[|s| - 8..][0] == '"';
      assert |s| == 8;
      assert raw == s[1..];
      assert s == "\"" + "command";
    }
  }

  /** For a key without escapes, a hit is the key "command" itself. */
  lemma PlainHitIff(us: seq<Unit>)
    requires WellFormedUnits(us) && AllPlain(us)
    ensures Hit(us) <==> UnitsText(us, "") == "command"
  {
    PlainTextLength(us);
    HitOfPlainText(UnitsText(us, ""));
  }

  /** A quote in the text is an escaped one, and is denoted. */
  lemma {:induction false} QuoteIsDenoted(us: seq<Unit>)
    requires WellFormedUnits(us) && '"' in UnitsText(us, "")
    ensures 34 in Denotes(us)
  {
    var tail := UnitsText(us[1..], "");
    if us[0] != Escape('"') {
      assert '"' !in UnitText(us[0]);
      QuoteIsDenoted(us[1..]);
    }
  }

  lemma {:induction false} NoBackslashIsPlain(us: seq<Unit>)
    requires WellFormedUnits(us) && '\\' !in UnitsText(us, "")
    ensures AllPlain(us)
  {
    if us != [] {
      assert UnitsText(us, "") == UnitText(us[0]) + UnitsText(us[1..], "");
      assert us[0].Plain? by { EscapeHasBackslash(us[0]); }
      NoBackslashIsPlain(us[1..]);
    }
  }

  lemma EscapeHasBackslash(u: Unit)
    ensures !u.Plain? ==> '\\' in UnitText(u)
  {
    if !u.Plain? {
      assert UnitText(u)[0] == '\\';
    }
  }

  const COMMAND: string := "command"

  /** A key that is taken for "command", or denotes it, is spelled without escapes. */
  predicate KeyReadsRight(key: seq<Unit>)
    requires WellFormedUnits(key)
  {
    Hit(key) || Denotes(key) == CodesOf(COMMAND) ==> AllPlain(key)
  }

  /** The condition is exact: a key is taken for "command" rightly if and only if it reads right. */
  lemma KeyRightIff(key: seq<Unit>)
    requires WellFormedUnits(key)
    ensures (Hit(key) == (Denotes(key) == CodesOf(COMMAND))) <==> KeyReadsRight(key)
  {
    var raw := UnitsText(key, "");
    if AllPlain(key) {
      PlainHitIff(key);
      PlainTextDenotes(key);
      if Denotes(key) == CodesOf(COMMAND) {
        CodesInjective(raw, COMMAND);
      }
    } else if Hit(key) {
      EscapedHitDenotes(key);
    }
  }

  lemma QuotelessHit(key: seq<Unit>)
    requires WellFormedUnits(key) && Hit(key) && '"' !in UnitsText(key, "")
    ensures AllPlain(key)
  {
    var raw := UnitsText(key, "");
    HitOfPlainText(raw);
    assert '\\' !in COMMAND;
    NoBackslashIsPlain(key);
  }

  lemma NoQuoteInCommand()
    ensures 34 !in CodesOf(COMMAND)
  {
  }

  /** A hit with an escape in it denotes a quote, so not "command". */
  lemma EscapedHitDenotes(key: seq<Unit>)
    requires WellFormedUnits(key) && Hit(key) && !AllPlain(key)
    ensures Denotes(key) != CodesOf(COMMAND)
  {
    hide Hit, UnitsText, Denotes, CodesOf, AllPlain, WellFormedUnits;
    NoQuoteInCommand();
    if '"' !in UnitsText(key, "") {
      QuotelessHit(key);
    } else {
      QuoteIsDenoted(key);
    }
  }

  function QuotedCommand(): seq<Unit> { [Escape('"')] + Letters(COMMAND) }

  lemma QuotedCommandText()
    ensures UnitsText(QuotedCommand(), "") == ['\\', '"'] + COMMAND
  {
    PlainTextLength(Letters(COMMAND));
    assert UnitsText(Letters(COMMAND), "") == COMMAND;
    assert QuotedCommand()[1..] == Letters(COMMAND);
  }

  /** A key that ends in an escaped quote and `command` is taken for "command". */
  lemma MisreadCommandKey()
    ensures WellFormedUnits(QuotedCommand()) && Hit(QuotedCommand()) && Denotes(QuotedCommand()) != CodesOf(COMMAND)
  {
    QuotedCommandText();
    hide UnitsText, Denotes, CodesOf;
    var s := "\"" + UnitsText(QuotedCommand(), "");
    assert s == ['"', '\\'] + (['"'] + COMMAND);
    assert s[|s| - 8..] == ['"'] + COMMAND;
    assert PATTERN[..8] == ['"'] + COMMAND;
    assert !QuotedCommand()[0].Plain?;
    EscapedHitDenotes(QuotedCommand());
  }

  // -------------------------------------------------------------------------
  // The first command by what keys denote.
  // -------------------------------------------------------------------------

  /** The first string in text order, at any depth, under a key that denotes "command". */
  function FirstDenoted(v: Json): Option<seq<Unit>>
    requires WellFormed(v)
  {
    match v
    case Literal(_) => None
    case Text(_) => None
    case Array(_, es) => FirstDenotedInElems(es)
    case Object(_, ms) => FirstDenotedInMembers(ms)
  }

  function FirstDenotedInElems(es: Elems): Option<seq<Unit>>
    requires WellFormedElems(es)
  {
    match es
    case NoElems => None
    case Elem(_, v, _, next) => if FirstDenoted(v).Some? then FirstDenoted(v) else FirstDenotedInElems(next)
  }

  function FirstDenotedInMembers(ms: Members): Option<seq<Unit>>
    requires WellFormedMembers(ms)
  {
    match ms
    case NoMembers => None
    case Member(_, k, _, _, v, _, next) =>
      if Denotes(k) == CodesOf(COMMAND) && v.Text? then Some(v.units)
      else if FirstDenoted(v).Some? then FirstDenoted(v)
      else FirstDenotedInMembers(next)
  }

  predicate KeysReadRight(v: Json)
    requires WellFormed(v)
  {
    match v
    case Literal(_) => true
    case Text(_) => true
    case Array(_, es) => ElemKeysReadRight(es)
    case Object(_, ms) => MemberKeysReadRight(ms)
  }

  predicate ElemKeysReadRight(es: Elems)
    requires WellFormedElems(es)
  {
    match es
    case NoElems => true
    case Elem(_, v, _, next) => KeysReadRight(v) && ElemKeysReadRight(next)
  }

  predicate MemberKeysReadRight(ms: Members)
    requires WellFormedMembers(ms)
  {
    match ms
    case NoMembers => true
    case Member(_, k, _, _, v, _, next) => KeyReadsRight(k) && KeysReadRight(v) && MemberKeysReadRight(next)
  }

  /** Where no key is spelled "command" but plainly, the string found is the one under that key. */
  lemma {:induction false} FoundIsDenoted(v: Json)
    requires WellFormed(v) && KeysReadRight(v)
    ensures FirstCommand(v) == FirstDenoted(v)
  {
    match v {
      case Literal(_) =>
      case Text(_) =>
      case Array(_, es) => FoundInElems(es);
      case Object(_, ms) => FoundInMembers(ms);
    }
  }

  lemma {:induction false} FoundInElems(es: Elems)
    requires WellFormedElems(es) && ElemKeysReadRight(es)
    ensures FirstInElems(es) == FirstDenotedInElems(es)
  {
    if es.Elem? {
      FoundIsDenoted(es.value);
      FoundInElems(es.next);
    }
  }

  lemma {:induction false} FoundInMembers(ms: Members)
    requires WellFormedMembers(ms) && MemberKeysReadRight(ms)
    ensures FirstInMembers(ms) == FirstDenotedInMembers(ms)
  {
    hide Hit, Denotes;
    if ms.Member? {
      KeyRightIff(ms.key);
      FoundIsDenoted(ms.value);
      FoundInMembers(ms.next);
    }
  }

  /** An object with one member, a string. */
  function Single(key: seq<Unit>, us: seq<Unit>): Json {
    Object("", Member("", key, "", "", Text(us), "", NoMembers))
  }

  /** And in an object with one key and a string under it, the right string is found, or none, if and
      only if the key reads right. */
  lemma KeyConditionIsExact(key: seq<Unit>, us: seq<Unit>)
    requires WellFormedUnits(key) && WellFormedUnits(us)
    ensures WellFormed(Single(key, us))
    ensures FirstCommand(Single(key, us)) == FirstDenoted(Single(key, us)) <==> KeyReadsRight(key)
  {
    hide Hit, Denotes, CodesOf, KeyReadsRight;
    KeyRightIff(key);
    var member := Member("", key, "", "", Text(us), "", NoMembers);
    assert WellFormedMembers(member);
    assert FirstInMembers(member) == if Hit(key) then Some(us) else None;
    assert FirstDenotedInMembers(member) == if Denotes(key) == CodesOf(COMMAND) then Some(us) else None;
  }
}
