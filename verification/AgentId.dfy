/** Subagent detection by text rewriting (tooling/claude-hooks/lib/agent-id.sh): three sed
    substitutions and a tr reduce a JSON text to its braces and one mark per `agent_id` key,
    and a loop then counts brace depth. */
module AgentId {
  import opened JsonText

  const SENTINEL: char := '\U{01}'
  const AGENT_ID: string := "agent_id"
  const KEY: string := "\"agent_id\""

  // -------------------------------------------------------------------------
  // The passes.  sed works line by line, so no match contains a newline.
  // -------------------------------------------------------------------------

  /** s/\\"//g */
  function DropEscapedQuotes(s: string): string {
    if s == "" then ""
    else if |s| >= 2 && s[0] == '\\' && s[1] == '"' then DropEscapedQuotes(s[2..])
    else [s[0]] + DropEscapedQuotes(s[1..])
  }

  /** The characters of [[:space:]] that can occur inside a line. */
  predicate IsLineSpace(c: char) {
    c == ' ' || c == '\t' || c == '\r' || c == '\U{0B}' || c == '\U{0C}'
  }

  function SpaceRun(s: string): (n: nat)
    ensures n <= |s|
    ensures forall i :: 0 <= i < n ==> IsLineSpace(s[i])
    ensures n < |s| ==> !IsLineSpace(s[n])
  {
    if s == "" || !IsLineSpace(s[0]) then 0 else 1 + SpaceRun(s[1..])
  }

  predicate ColonFollows(s: string) {
    var n := SpaceRun(s);
    n < |s| && s[n] == ':'
  }

  /** Only blanks, tabs, carriage returns, vertical tabs and form feeds may stand in front of the colon. */
  lemma {:induction false} ColonFollowsIff(gap: string, rest: string)
    requires ':' !in gap
    ensures ColonFollows(gap + (":" + rest)) <==>
              forall i :: 0 <= i < |gap| ==> gap[i] in " \t\r\U{0B}\U{0C}"
  {
    if gap != "" {
      ColonFollowsIff(gap[1..], rest);
      var s := gap + (":" + rest);
      assert s[1..] == gap[1..] + (":" + rest);
      assert gap == [gap[0]] + gap[1..];
    }
  }

  /** s/"agent_id"\([[:space:]]*\):/\x01\1:/g */
  function TagKeys(s: string): string
    decreases |s|
  {
    if s == "" then ""
    else if KEY <= s && ColonFollows(s[|KEY|..]) then
      var rest := s[|KEY|..];
      var n := SpaceRun(rest);
      [SENTINEL] + (rest[..n + 1] + TagKeys(rest[n + 1..]))
    else [s[0]] + TagKeys(s[1..])
  }

  /** The index of the first quote of the current line, or -1. */
  function ClosingQuote(s: string): (n: int)
    ensures -1 <= n < |s|
  {
    if s == "" || s[0] == '\n' then -1
    else if s[0] == '"' then 0
    else
      var n := ClosingQuote(s[1..]);
      if n < 0 then -1 else n + 1
  }

  /** s/"[^"]*"/""/g */
  function BlankStrings(s: string): string
    decreases |s|
  {
    if s == "" then ""
    else
      var n := ClosingQuote(s[1..]);
      if s[0] == '"' && n >= 0 then "\"\"" + BlankStrings(s[n + 2..])
      else [s[0]] + BlankStrings(s[1..])
  }

  predicate IsStructural(c: char) {
    c == '{' || c == '}' || c == SENTINEL
  }

  /** tr -cd '{}\001' */
  function KeepStructure(s: string): string {
    if s == "" then ""
    else if IsStructural(s[0]) then [s[0]] + KeepStructure(s[1..]) else KeepStructure(s[1..])
  }

  function Reduce(s: string): string {
    KeepStructure(BlankStrings(TagKeys(s)))
  }

  function Skeleton(s: string): string {
    Reduce(DropEscapedQuotes(s))
  }

  /** What the depth walk answers from brace depth `depth` on. */
  predicate Walk(skeleton: string, depth: int) {
    if skeleton == "" then false
    else match skeleton[0]
      case '{' => Walk(skeleton[1..], depth + 1)
      case '}' => Walk(skeleton[1..], depth - 1)
      case c => (c == SENTINEL && depth == 1) || Walk(skeleton[1..], depth)
  }

  method IsSubagent(json: string) returns (found: bool)
    ensures found == Walk(Skeleton(json), 0)
  {
    var skeleton := Skeleton(json);
    var i, depth := 0, 0;
    while i < |skeleton|
      invariant 0 <= i <= |skeleton|
      invariant Walk(skeleton, 0) == Walk(skeleton[i..], depth)
    {
      var ch := skeleton[i];
      if ch == '{' {
        depth := depth + 1;
      } else if ch == '}' {
        depth := depth - 1;
      } else if ch == SENTINEL {
        if depth == 1 {
          return true;
        }
      }
      assert skeleton[i..][1..] == skeleton[i + 1..];
      i := i + 1;
    }
    found := false;
  }

  // -------------------------------------------------------------------------
  // What the passes do to one character and to one string token.
  // -------------------------------------------------------------------------

  lemma DropChar(c: char, r: string)
    requires c != '\\'
    ensures DropEscapedQuotes([c] + r) == [c] + DropEscapedQuotes(r)
  {
    assert ([c] + r)[1..] == r;
  }

  lemma {:induction false} DropRun(w: string, r: string)
    requires '\\' !in w
    ensures DropEscapedQuotes(w + r) == w + DropEscapedQuotes(r)
  {
    if w == "" {
      assert w + r == r;
    } else {
      DropChar(w[0], w[1..] + r);
      DropRun(w[1..], r);
      assert w + r == [w[0]] + (w[1..] + r);
    }
  }

  lemma ReduceChar(c: char, r: string)
    requires c != '"'
    ensures Reduce([c] + r) == if IsStructural(c) then [c] + Reduce(r) else Reduce(r)
  {
    assert ([c] + r)[1..] == r;
    assert KEY[0] == '"';
    assert TagKeys([c] + r) == [c] + TagKeys(r);
    hide TagKeys;
    BlankChar(c, TagKeys(r));
    KeepChar(c, BlankStrings(TagKeys(r)));
  }

  lemma SkeletonChar(c: char, r: string)
    requires c != '"' && c != '\\'
    ensures Skeleton([c] + r) == if IsStructural(c) then [c] + Skeleton(r) else Skeleton(r)
  {
    DropChar(c, r);
    ReduceChar(c, DropEscapedQuotes(r));
  }

  predicate Inert(w: string) {
    forall i :: 0 <= i < |w| ==> w[i] != '"' && w[i] != '\\' && !IsStructural(w[i])
  }

  lemma {:induction false} SkeletonRun(w: string, r: string)
    requires Inert(w)
    ensures Skeleton(w + r) == Skeleton(r)
  {
    hide Skeleton, IsStructural;
    if w == "" {
      assert w + r == r;
    } else {
      var c, rest := w[0], w[1..];
      assert w + r == [c] + (rest + r);
      SkeletonChar(c, rest + r);
      SkeletonRun(rest, r);
    }
  }

  /** A string's text once its escaped quotes are dropped. */
  function Body(us: seq<Unit>): string {
    if us == [] then "" else UnitBody(us[0]) + Body(us[1..])
  }

  /** The text ends in a backslash: a printed closing quote then follows one. */
  predicate EndsInBackslash(us: seq<Unit>) {
    us != [] && us[|us| - 1] == Escape('\\')
  }

  lemma DropQuotePair(r: string)
    ensures DropEscapedQuotes("\\\"" + r) == DropEscapedQuotes(r)
  {
    assert ("\\\"" + r)[2..] == r;
  }

  lemma DropBackslash(r: string)
    requires r == "" || r[0] != '"'
    ensures DropEscapedQuotes("\\" + r) == "\\" + DropEscapedQuotes(r)
  {
    assert ("\\" + r)[1..] == r;
  }

  lemma DropPair(c: char, r: string)
    requires c != '"'
    requires c == '\\' ==> r == "" || r[0] != '"'
    ensures DropEscapedQuotes(['\\', c] + r) == ['\\', c] + DropEscapedQuotes(r)
  {
    hide DropEscapedQuotes;
    DropBackslash([c] + r);
    assert ['\\', c] + r == "\\" + ([c] + r);
    if c == '\\' {
      DropBackslash(r);
    } else {
      DropChar(c, r);
    }
  }

  function UnitBody(u: Unit): string {
    if u == Escape('"') then "" else UnitText(u)
  }

  lemma DropUnicode(hex: string, r: string)
    requires '\\' !in hex
    ensures DropEscapedQuotes(("\\u" + hex) + r) == "\\u" + hex + DropEscapedQuotes(r)
  {
    hide DropEscapedQuotes;
    assert ("\\u" + hex) + r == ['\\', 'u'] + (hex + r);
    DropPair('u', hex + r);
    DropRun(hex, r);
  }

  lemma DropUnit(u: Unit, r: string)
    requires WellFormedUnit(u)
    requires u == Escape('\\') ==> r != "" && r[0] != '"'
    ensures DropEscapedQuotes(UnitText(u) + r) == UnitBody(u) + DropEscapedQuotes(r)
  {
    hide DropEscapedQuotes;
    match u {
      case Plain(c) => DropChar(c, r);
      case Unicode(hex) => DropUnicode(hex, r);
      case Escape(c) =>
        if c == '"' {
          DropQuotePair(r);
        } else {
          DropPair(c, r);
        }
    }
  }

  lemma TextHead(us: seq<Unit>, r: string)
    requires WellFormedUnits(us)
    ensures us != [] ==> UnitsText(us, r) != "" && UnitsText(us, r)[0] != '"'
  {
  }

  lemma {:induction false} DropUnits(us: seq<Unit>, r: string)
    requires WellFormedUnits(us)
    requires !EndsInBackslash(us)
    ensures DropEscapedQuotes(UnitsText(us, "\"" + r)) == Body(us) + ("\"" + DropEscapedQuotes(r))
  {
    hide DropEscapedQuotes, UnitText, UnitBody, WellFormedUnit;
    if us == [] {
      DropChar('"', r);
      assert "" + ("\"" + DropEscapedQuotes(r)) == "\"" + DropEscapedQuotes(r);
    } else {
      var tail := UnitsText(us[1..], "\"" + r);
      TextHead(us[1..], "\"" + r);
      DropUnit(us[0], tail);
      DropUnits(us[1..], r);
    }
  }

  /** No quote and no newline. */
  predicate InsideString(w: string) {
    forall i :: 0 <= i < |w| ==> w[i] != '"' && w[i] != '\n'
  }

  lemma {:induction false} BodyInsideString(us: seq<Unit>)
    requires WellFormedUnits(us)
    ensures InsideString(Body(us))
  {
    if us != [] {
      BodyInsideString(us[1..]);
      assert InsideString(UnitBody(us[0]));
    }
  }

  lemma TagChar(c: char, t: string)
    requires c != '"'
    ensures TagKeys([c] + t) == [c] + TagKeys(t)
  {
    assert KEY[0] == '"';
    assert ([c] + t)[1..] == t;
  }

  lemma {:induction false} TagRun(w: string, r: string)
    requires '"' !in w
    ensures TagKeys(w + r) == w + TagKeys(r)
  {
    hide TagKeys;
    if w == "" {
      assert w + r == r;
    } else {
      TagChar(w[0], w[1..] + r);
      TagRun(w[1..], r);
      assert w + r == [w[0]] + (w[1..] + r);
    }
  }

  /** The key pattern can only match a whole string token. */
  lemma KeyMatch(body: string, x: string)
    requires InsideString(body)
    ensures KEY <= "\"" + (body + ("\"" + x)) <==> body == AGENT_ID
  {
    var s := "\"" + (body + ("\"" + x));
    assert KEY == "\"" + AGENT_ID + "\"";
    assert forall i :: 0 <= i < |body| ==> s[i + 1] == body[i];
    assert s[|body| + 1] == '"';
    if KEY <= s {
      assert forall i :: 0 <= i < |KEY| ==> s[i] == KEY[i];
      assert KEY[9] == '"';
      if |body| < 8 {
        assert false;
      }
      assert body == AGENT_ID;
    }
    if body == AGENT_ID {
      assert s[..10] == KEY;
    }
  }

  lemma TagKeyAt(x: string)
    requires ColonFollows(x)
    ensures TagKeys(KEY + x) == [SENTINEL] + TagKeys(x)
  {
    var n := SpaceRun(x);
    assert x == x[..n + 1] + x[n + 1..];
    TagRun(x[..n + 1], x[n + 1..]);
    hide SpaceRun, ColonFollows;
    assert KEY <= KEY + x && (KEY + x)[|KEY|..] == x;
  }

  /** A quote that starts no tagged key is kept. */
  lemma TagOtherQuote(t: string)
    requires KEY <= "\"" + t ==> !ColonFollows(t[|KEY| - 1..])
    ensures TagKeys("\"" + t) == "\"" + TagKeys(t)
  {
    var s := "\"" + t;
    assert s[1..] == t;
    if KEY <= s {
      assert s[|KEY|..] == t[|KEY| - 1..];
    }
  }

  lemma TagString(body: string, x: string)
    requires InsideString(body)
    requires x == "" || x[0] != 'a'
    ensures TagKeys("\"" + (body + ("\"" + x))) ==
            if body == AGENT_ID && ColonFollows(x) then [SENTINEL] + TagKeys(x)
            else "\"" + (body + ("\"" + TagKeys(x)))
  {
    hide TagKeys, ColonFollows;
    var t := body + ("\"" + x);
    KeyMatch(body, x);
    if body == AGENT_ID && ColonFollows(x) {
      assert "\"" + t == KEY + x;
      TagKeyAt(x);
    } else {
      if body == AGENT_ID {
        assert t[|KEY| - 1..] == x;
      }
      TagOtherQuote(t);
      TagRun(body, "\"" + x);
      TagClosing(x);
    }
  }

  lemma TagClosing(x: string)
    requires x == "" || x[0] != 'a'
    ensures TagKeys("\"" + x) == "\"" + TagKeys(x)
  {
    assert KEY[1] == 'a';
    assert ("\"" + x)[1..] == x;
  }

  lemma {:induction false} ClosingQuoteAt(body: string, y: string)
    requires InsideString(body)
    ensures ClosingQuote(body + ("\"" + y)) == |body|
  {
    if body == "" {
      assert body + ("\"" + y) == "\"" + y;
    } else {
      ClosingQuoteAt(body[1..], y);
      assert (body + ("\"" + y))[1..] == body[1..] + ("\"" + y);
    }
  }

  lemma BlankString(body: string, y: string)
    requires InsideString(body)
    ensures BlankStrings("\"" + (body + ("\"" + y))) == "\"\"" + BlankStrings(y)
  {
    var s := "\"" + (body + ("\"" + y));
    assert s[1..] == body + ("\"" + y);
    ClosingQuoteAt(body, y);
    assert s[|body| + 2..] == y;
  }

  lemma KeepChar(c: char, y: string)
    ensures KeepStructure([c] + y) == if IsStructural(c) then [c] + KeepStructure(y) else KeepStructure(y)
  {
    assert ([c] + y)[1..] == y;
  }

  lemma BlankChar(c: char, y: string)
    requires c != '"'
    ensures BlankStrings([c] + y) == [c] + BlankStrings(y)
  {
    assert ([c] + y)[1..] == y;
  }

  lemma ReduceString(body: string, x: string)
    requires InsideString(body)
    requires x == "" || x[0] != 'a'
    ensures Reduce("\"" + (body + ("\"" + x))) ==
            if body == AGENT_ID && ColonFollows(x) then [SENTINEL] + Reduce(x) else Reduce(x)
  {
    hide TagKeys, BlankStrings, KeepStructure, ColonFollows, InsideString;
    TagString(body, x);
    var kept := BlankStrings(TagKeys(x));
    if body == AGENT_ID && ColonFollows(x) {
      BlankChar(SENTINEL, TagKeys(x));
      KeepChar(SENTINEL, kept);
    } else {
      BlankString(body, TagKeys(x));
      KeepQuotes(kept);
    }
  }

  lemma KeepQuotes(r: string)
    ensures KeepStructure("\"\"" + r) == KeepStructure(r)
  {
    hide KeepStructure;
    assert "\"\"" + r == "\"" + ("\"" + r);
    KeepChar('"', "\"" + r);
    KeepChar('"', r);
  }

  /** One string token adds a mark when it reads as an `agent_id` key and nothing otherwise. */
  lemma SkeletonString(us: seq<Unit>, r: string)
    requires WellFormedUnits(us) && !EndsInBackslash(us)
    requires DropEscapedQuotes(r) == "" || DropEscapedQuotes(r)[0] != 'a'
    ensures Skeleton(StringText(us, r)) ==
            if Body(us) == AGENT_ID && ColonFollows(DropEscapedQuotes(r)) then [SENTINEL] + Skeleton(r) else Skeleton(r)
  {
    hide DropEscapedQuotes;
    DropChar('"', UnitsText(us, "\"" + r));
    DropUnits(us, r);
    BodyInsideString(us);
    ReduceString(Body(us), DropEscapedQuotes(r));
  }

  // -------------------------------------------------------------------------
  // The skeleton of a JSON text is the structure of the value.
  // -------------------------------------------------------------------------

  predicate NoTrailingBackslash(v: Json) {
    match v
    case Literal(_) => true
    case Text(us) => !EndsInBackslash(us)
    case Array(_, es) => NoTrailingBackslashElems(es)
    case Object(_, ms) => NoTrailingBackslashMembers(ms)
  }

  predicate NoTrailingBackslashElems(es: Elems) {
    match es
    case NoElems => true
    case Elem(_, v, _, next) => NoTrailingBackslash(v) && NoTrailingBackslashElems(next)
  }

  predicate NoTrailingBackslashMembers(ms: Members) {
    match ms
    case NoMembers => true
    case Member(_, k, _, _, v, _, next) =>
      !EndsInBackslash(k) && NoTrailingBackslash(v) && NoTrailingBackslashMembers(next)
  }

  /** A member whose key the passes take for `agent_id`. */
  predicate ReadsAsKey(key: seq<Unit>, gap: string) {
    Body(key) == AGENT_ID && '\n' !in gap
  }

  /** Braces and marks of a value, followed by `rest`. */
  function Structure(v: Json, rest: string): string {
    match v
    case Literal(_) => rest
    case Text(_) => rest
    case Array(_, es) => ElemsStructure(es, rest)
    case Object(_, ms) => "{" + MembersStructure(ms, "}" + rest)
  }

  function ElemsStructure(es: Elems, rest: string): string {
    match es
    case NoElems => rest
    case Elem(_, v, _, next) => Structure(v, ElemsStructure(next, rest))
  }

  function MembersStructure(ms: Members, rest: string): string {
    match ms
    case NoMembers => rest
    case Member(_, k, g, _, v, _, next) =>
      var tail := Structure(v, MembersStructure(next, rest));
      if ReadsAsKey(k, g) then [SENTINEL] + tail else tail
  }

  /** What may follow a value: white space, then a comma, a closing bracket or the end. */
  predicate ValueEnd(r: string) {
    r == "" || r[0] in ",]}" || (IsWhite(r[0]) && ValueEnd(r[1..]))
  }

  lemma {:induction false} ValueEndWhite(w: string, r: string)
    requires White(w) && ValueEnd(r)
    ensures ValueEnd(w + r)
  {
    if w == "" {
      assert w + r == r;
    } else {
      ValueEndWhite(w[1..], r);
      assert (w + r)[1..] == w[1..] + r;
    }
  }

  lemma {:induction false} ValueEndNoColon(r: string)
    requires ValueEnd(r)
    ensures var d := DropEscapedQuotes(r); (d == "" || d[0] != 'a') && !ColonFollows(d)
  {
    if r != "" {
      DropChar(r[0], r[1..]);
      assert r == [r[0]] + r[1..];
      if r[0] !in ",]}" {
        ValueEndNoColon(r[1..]);
        var d := DropEscapedQuotes(r);
        assert d[1..] == DropEscapedQuotes(r[1..]);
      }
    }
  }

  lemma {:induction false} GapColon(gap: string, x: string)
    requires White(gap)
    ensures ColonFollows(gap + (":" + x)) <==> '\n' !in gap
  {
    var s := gap + (":" + x);
    if gap == "" {
      assert s == ":" + x;
    } else {
      GapColon(gap[1..], x);
      assert s[1..] == gap[1..] + (":" + x);
    }
  }

  lemma WhiteIsInert(w: string)
    requires White(w)
    ensures Inert(w) && '\\' !in w
  {
  }

  lemma {:induction false} SkeletonOfKey(key: seq<Unit>, gap: string, x: string)
    requires WellFormedUnits(key) && !EndsInBackslash(key) && White(gap)
    ensures Skeleton(StringText(key, gap + (":" + x))) ==
            if ReadsAsKey(key, gap) then [SENTINEL] + Skeleton(x) else Skeleton(x)
  {
    hide DropEscapedQuotes, Skeleton;
    WhiteIsInert(gap);
    DropRun(gap, ":" + x);
    DropChar(':', x);
    GapColon(gap, DropEscapedQuotes(x));
    SkeletonString(key, gap + (":" + x));
    SkeletonRun(gap, ":" + x);
    SkeletonChar(':', x);
  }

  lemma {:induction false} SkeletonOfValue(v: Json, rest: string)
    requires WellFormed(v) && NoTrailingBackslash(v) && ValueEnd(rest)
    ensures Skeleton(ValueText(v, rest)) == Structure(v, Skeleton(rest))
  {
    hide DropEscapedQuotes, Skeleton;
    match v {
      case Literal(t) =>
        SkeletonRun(t, rest);
      case Text(us) =>
        ValueEndNoColon(rest);
        SkeletonString(us, rest);
      case Array(pad, es) =>
        WhiteIsInert(pad);
        SkeletonChar('[', pad + ElemsText(es, "]" + rest));
        SkeletonRun(pad, ElemsText(es, "]" + rest));
        SkeletonOfElems(es, "]" + rest);
        SkeletonChar(']', rest);
      case Object(pad, ms) =>
        WhiteIsInert(pad);
        SkeletonChar('{', pad + MembersText(ms, "}" + rest));
        SkeletonRun(pad, MembersText(ms, "}" + rest));
        SkeletonOfMembers(ms, "}" + rest);
        SkeletonChar('}', rest);
    }
  }

  lemma {:induction false} SkeletonOfElems(es: Elems, rest: string)
    requires WellFormedElems(es) && NoTrailingBackslashElems(es) && ValueEnd(rest)
    ensures Skeleton(ElemsText(es, rest)) == ElemsStructure(es, Skeleton(rest))
  {
    hide DropEscapedQuotes, Skeleton;
    match es {
      case NoElems =>
      case Elem(b, v, a, next) =>
        var tail := if next.NoElems? then rest else "," + ElemsText(next, rest);
        SkeletonOfElems(next, rest);
        if !next.NoElems? {
          SkeletonChar(',', ElemsText(next, rest));
        }
        WhiteIsInert(b);
        WhiteIsInert(a);
        ValueEndWhite(a, tail);
        SkeletonRun(a, tail);
        SkeletonOfValue(v, a + tail);
        SkeletonRun(b, ValueText(v, a + tail));
    }
  }

  lemma {:induction false} SkeletonOfMembers(ms: Members, rest: string)
    requires WellFormedMembers(ms) && NoTrailingBackslashMembers(ms) && ValueEnd(rest)
    ensures Skeleton(MembersText(ms, rest)) == MembersStructure(ms, Skeleton(rest))
  {
    hide DropEscapedQuotes, Skeleton;
    match ms {
      case NoMembers =>
      case Member(b, k, g, l, v, a, next) =>
        var tail := if next.NoMembers? then rest else "," + MembersText(next, rest);
        SkeletonOfMembers(next, rest);
        if !next.NoMembers? {
          SkeletonChar(',', MembersText(next, rest));
        }
        WhiteIsInert(b);
        WhiteIsInert(l);
        WhiteIsInert(a);
        ValueEndWhite(a, tail);
        SkeletonRun(a, tail);
        SkeletonOfValue(v, a + tail);
        SkeletonRun(l, ValueText(v, a + tail));
        SkeletonOfKey(k, g, l + ValueText(v, a + tail));
        SkeletonRun(b, StringText(k, g + (":" + (l + ValueText(v, a + tail)))));
    }
  }

  // -------------------------------------------------------------------------
  // The depth walk over a structure.
  // -------------------------------------------------------------------------

  /** Some member of the object itself, at no deeper level, reads as `agent_id`. */
  predicate SomeMemberReads(ms: Members) {
    ms.Member? && (ReadsAsKey(ms.key, ms.gap) || SomeMemberReads(ms.next))
  }

  lemma {:induction false} WalkValue(v: Json, rest: string, depth: int)
    requires depth >= 1
    ensures Walk(Structure(v, rest), depth) == Walk(rest, depth)
  {
    match v {
      case Literal(_) =>
      case Text(_) =>
      case Array(_, es) => WalkElems(es, rest, depth);
      case Object(_, ms) =>
        WalkMembers(ms, "}" + rest, depth + 1);
        assert ("}" + rest)[1..] == rest;
        assert ("{" + MembersStructure(ms, "}" + rest))[1..] == MembersStructure(ms, "}" + rest);
    }
  }

  lemma {:induction false} WalkElems(es: Elems, rest: string, depth: int)
    requires depth >= 1
    ensures Walk(ElemsStructure(es, rest), depth) == Walk(rest, depth)
  {
    if es.Elem? {
      WalkValue(es.value, ElemsStructure(es.next, rest), depth);
      WalkElems(es.next, rest, depth);
    }
  }

  lemma {:induction false} WalkMembers(ms: Members, rest: string, depth: int)
    requires depth >= 1
    ensures Walk(MembersStructure(ms, rest), depth) ==
            ((depth == 1 && SomeMemberReads(ms)) || Walk(rest, depth))
  {
    if ms.Member? {
      var tail := Structure(ms.value, MembersStructure(ms.next, rest));
      assert ([SENTINEL] + tail)[1..] == tail;
      WalkValue(ms.value, MembersStructure(ms.next, rest), depth);
      WalkMembers(ms.next, rest, depth);
    }
  }

  // -------------------------------------------------------------------------
  // Main results.
  // -------------------------------------------------------------------------

  /** The text of a document whose root is an object. */
  function DocumentText(before: string, pad: string, ms: Members, after: string): string {
    before + ValueText(Object(pad, ms), after)
  }

  /** On every JSON object in every layout, with no string ending in a backslash, the answer is
      decided by the root's own members, whatever text, braces or keys occur deeper. */
  lemma AnswerIsAboutRootMembers(before: string, pad: string, ms: Members, after: string)
    requires White(before) && White(pad) && White(after) && WellFormedMembers(ms)
    requires NoTrailingBackslashMembers(ms)
    ensures Walk(Skeleton(DocumentText(before, pad, ms, after)), 0) <==> SomeMemberReads(ms)
  {
    hide DropEscapedQuotes, Skeleton;
    var root := Object(pad, ms);
    WhiteIsInert(before);
    WhiteIsInert(after);
    SkeletonRun(before, ValueText(root, after));
    ValueEndWhite(after, "");
    assert after + "" == after;
    SkeletonOfValue(root, after);
    SkeletonRun(after, "");
    var inner := MembersStructure(ms, "}" + Skeleton(after));
    assert Skeleton("") == "" by { EmptySkeleton(); }
    assert ("{" + inner)[1..] == inner;
    WalkMembers(ms, "}" + Skeleton(after), 1);
  }

  lemma EmptySkeleton()
    ensures Skeleton("") == ""
  {
  }

  predicate HasRootKey(ms: Members)
    requires WellFormedMembers(ms)
  {
    ms.Member? && (Denotes(ms.key) == CodesOf(AGENT_ID) || HasRootKey(ms.next))
  }

  /** A key that is printed as `agent_id` in front of its colon, or denotes it, does both: it is
      spelled without escapes and stands on one line with its colon. */
  predicate ReadsRight(key: seq<Unit>, gap: string)
    requires WellFormedUnits(key)
  {
    ReadsAsKey(key, gap) || Denotes(key) == CodesOf(AGENT_ID) ==> AllPlain(key) && '\n' !in gap
  }

  predicate RootKeysReadRight(ms: Members)
    requires WellFormedMembers(ms)
  {
    ms.Member? ==> ReadsRight(ms.key, ms.gap) && RootKeysReadRight(ms.next)
  }

  /** The passes drop nothing from plain characters. */
  lemma {:induction false} PlainBody(key: seq<Unit>)
    requires AllPlain(key)
    ensures Body(key) == UnitsText(key, "")
  {
    if key != [] {
      PlainBody(key[1..]);
    }
  }

  lemma PlainKeyText(key: seq<Unit>)
    requires WellFormedUnits(key) && AllPlain(key)
    ensures Denotes(key) == CodesOf(Body(key))
  {
    PlainBody(key);
    PlainTextDenotes(key);
  }

  /** Such keys are judged by what they denote. */
  lemma ReadsRightKey(key: seq<Unit>, gap: string)
    requires WellFormedUnits(key) && ReadsRight(key, gap)
    ensures ReadsAsKey(key, gap) <==> Denotes(key) == CodesOf(AGENT_ID)
  {
    if AllPlain(key) {
      PlainKeyText(key);
      if Denotes(key) == CodesOf(AGENT_ID) {
        CodesInjective(Body(key), AGENT_ID);
      }
    }
  }

  lemma {:induction false} RootKeysAreJudged(ms: Members)
    requires WellFormedMembers(ms) && RootKeysReadRight(ms)
    ensures SomeMemberReads(ms) == HasRootKey(ms)
  {
    if ms.Member? {
      ReadsRightKey(ms.key, ms.gap);
      RootKeysAreJudged(ms.next);
    }
  }

  /** The promise of the file's header, for documents whose strings do not end in a backslash and
      whose root keys are not spelled `agent_id` in any other way than plainly. */
  lemma SubagentIffRootKey(before: string, pad: string, ms: Members, after: string)
    requires White(before) && White(pad) && White(after) && WellFormedMembers(ms)
    requires NoTrailingBackslashMembers(ms) && RootKeysReadRight(ms)
    ensures Walk(Skeleton(DocumentText(before, pad, ms, after)), 0) <==> HasRootKey(ms)
  {
    AnswerIsAboutRootMembers(before, pad, ms, after);
    RootKeysAreJudged(ms);
  }
}
