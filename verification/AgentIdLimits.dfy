/** Where the conditions on AgentId's main results come from: each one is exact, for a string and
    for a key, and the inputs it shuts out are misread. */
module AgentIdLimits {
  import opened JsonText
  import opened AgentId

  /** The closing delimiter behind a backslash goes with it. */
  lemma DropLastBackslash(r: string)
    ensures DropEscapedQuotes(UnitsText([Escape('\\')], "\"" + r)) == "\\" + DropEscapedQuotes(r)
  {
    hide DropEscapedQuotes;
    var us := [Escape('\\')];
    assert us[1..] == [];
    assert UnitsText(us, "\"" + r) == "\\" + ("\\" + ("\"" + r));
    DropBackslash("\\" + ("\"" + r));
    assert "\\" + ("\"" + r) == "\\\"" + r;
    DropQuotePair(r);
  }

  lemma {:induction false} DropUnitsTrailing(us: seq<Unit>, r: string)
    requires WellFormedUnits(us) && EndsInBackslash(us)
    ensures DropEscapedQuotes(UnitsText(us, "\"" + r)) == Body(us[..|us| - 1]) + ("\\" + DropEscapedQuotes(r))
  {
    hide DropEscapedQuotes, UnitText, UnitBody;
    if |us| == 1 {
      assert us == [Escape('\\')] && us[..|us| - 1] == [];
      DropLastBackslash(r);
      assert "" + ("\\" + DropEscapedQuotes(r)) == "\\" + DropEscapedQuotes(r);
    } else {
      var tail := UnitsText(us[1..], "\"" + r);
      TextHead(us[1..], "\"" + r);
      DropUnit(us[0], tail);
      DropUnitsTrailing(us[1..], r);
      assert us[..|us| - 1][1..] == us[1..][..|us| - 2];
    }
  }

  function Quotes(s: string): nat {
    if s == "" then 0 else (if s[0] == '"' then 1 else 0) + Quotes(s[1..])
  }

  lemma {:induction false} QuotesConcat(s: string, t: string)
    ensures Quotes(s + t) == Quotes(s) + Quotes(t)
  {
    if s == "" {
      assert s + t == t;
    } else {
      QuotesConcat(s[1..], t);
      assert (s + t)[1..] == s[1..] + t;
    }
  }

  lemma {:induction false} NoQuotes(s: string)
    requires '"' !in s
    ensures Quotes(s) == 0
  {
    if s != "" {
      NoQuotes(s[1..]);
    }
  }

  /** The first step leaves a string's two delimiters and no other quote of it, except that a
      string ending in a backslash loses its closing delimiter. */
  lemma DelimitersLeft(us: seq<Unit>, r: string)
    requires WellFormedUnits(us)
    ensures Quotes(DropEscapedQuotes(StringText(us, r))) ==
            (if EndsInBackslash(us) then 1 else 2) + Quotes(DropEscapedQuotes(r))
  {
    hide DropEscapedQuotes;
    var rest := DropEscapedQuotes(r);
    DropChar('"', UnitsText(us, "\"" + r));
    if EndsInBackslash(us) {
      DropUnitsTrailing(us, r);
      var init := us[..|us| - 1];
      BodyInsideString(init);
      NoQuotes(Body(init));
      QuotesConcat("\\", rest);
      QuotesConcat(Body(init), "\\" + rest);
      QuotesConcat("\"", Body(init) + ("\\" + rest));
    } else {
      DropUnits(us, r);
      BodyInsideString(us);
      NoQuotes(Body(us));
      QuotesConcat("\"", rest);
      QuotesConcat(Body(us), "\"" + rest);
      QuotesConcat("\"", Body(us) + ("\"" + rest));
    }
  }

  /** A document with one free key: {"<us>":"}","agent_id":1}. */
  function Around(us: seq<Unit>): Members {
    Member("", us, "", "", Text(Letters("}")), "",
    Member("", Letters("agent_id"), "", "", Literal("1"), "", NoMembers))
  }

  lemma AroundText(us: seq<Unit>)
    ensures DocumentText("", "", Around(us), "") ==
            "{" + StringText(us, ":" + AroundTail())
  {
    var inner := Around(us).next;
    var fourth := StringText(Letters("agent_id"), ":1}");
    assert ValueText(Literal("1"), "" + "}") == "1}";
    assert "" + (":" + ("" + "1}")) == ":1}";
    assert MembersText(inner, "}") == "" + fourth;
    assert "" + fourth == fourth;
    var third := StringText(Letters("}"), "," + fourth);
    assert "" + ("," + fourth) == "," + fourth;
    assert ValueText(Text(Letters("}")), "" + ("," + MembersText(inner, "}"))) == third;
    assert "" + (":" + ("" + third)) == ":" + third;
    assert MembersText(Around(us), "}") == "" + StringText(us, ":" + third);
    var whole := "{" + StringText(us, ":" + third);
    assert "" + ("{" + ("" + ("" + StringText(us, ":" + third)))) == whole;
    assert "}" + "" == "}";
  }

  lemma DropLetters(s: string, r: string)
    requires forall i :: 0 <= i < |s| ==> WellFormedUnit(Plain(s[i]))
    ensures DropEscapedQuotes(StringText(Letters(s), r)) == "\"" + (s + ("\"" + DropEscapedQuotes(r)))
  {
    hide DropEscapedQuotes;
    DropChar('"', UnitsText(Letters(s), "\"" + r));
    DropUnits(Letters(s), r);
    LettersBody(s);
  }

  lemma {:induction false} NoStrings(s: string)
    requires '"' !in s
    ensures ClosingQuote(s) == -1 && BlankStrings(s) == s
  {
    if s != "" {
      NoStrings(s[1..]);
    }
  }

  lemma UnclosedQuote(s: string)
    requires '"' !in s
    ensures BlankStrings("\"" + s) == "\"" + s
  {
    NoStrings(s);
    assert ("\"" + s)[1..] == s;
  }

  lemma TailTagged()
    ensures TagKeys("\"" + ("," + (KEY + ":1}"))) == "\"" + ("," + ([SENTINEL] + ":1}"))
  {
    hide TagKeys;
    TagClosing("," + (KEY + ":1}"));
    TagRun(",", KEY + ":1}");
    TagKeyAt(":1}");
    TagRun(":1}", "");
    assert ":1}" + "" == ":1}";
    assert TagKeys("") == "" by { TagEmpty(); }
  }

  lemma TagEmpty()
    ensures TagKeys("") == ""
  {
  }

  lemma TailReduces()
    ensures Reduce("\"" + ("," + (KEY + ":1}"))) == [SENTINEL, '}']
  {
    hide TagKeys, BlankStrings, KeepStructure;
    TailTagged();
    UnclosedQuote("," + ([SENTINEL] + ":1}"));
    KeepChar('"', "," + ([SENTINEL] + ":1}"));
    KeepChar(',', [SENTINEL] + ":1}");
    KeepChar(SENTINEL, ":1}");
    TailKept();
  }

  lemma TailKept()
    ensures KeepStructure(":1}") == "}"
  {
    assert ":1}"[1..] == "1}" && "1}"[1..] == "}";
  }

  /** The part behind the free key's colon, and what the first pass leaves of it. */
  function AroundTail(): string {
    StringText(Letters("}"), "," + StringText(Letters("agent_id"), ":1}"))
  }

  function DroppedTail(): string { "\"" + ("}" + ("\"" + ("," + (KEY + ":1}")))) }

  lemma TailDropped()
    ensures DropEscapedQuotes(AroundTail()) == DroppedTail()
  {
    hide DropEscapedQuotes, StringText, Letters;
    DropRun(":1}", "");
    assert ":1}" + "" == ":1}";
    assert DropEscapedQuotes("") == "" by { DropEmpty(); }
    DropLetters("agent_id", ":1}");
    assert "\"" + ("agent_id" + ("\"" + ":1}")) == KEY + ":1}";
    DropChar(',', StringText(Letters("agent_id"), ":1}"));
    DropLetters("}", "," + StringText(Letters("agent_id"), ":1}"));
  }

  lemma AroundDropped(us: seq<Unit>)
    requires WellFormedUnits(us) && EndsInBackslash(us)
    ensures DropEscapedQuotes(DocumentText("", "", Around(us), "")) ==
            "{" + ("\"" + ((Body(us[..|us| - 1]) + "\\:") + DroppedTail()))
  {
    AroundText(us);
    hide DropEscapedQuotes, AroundTail, DroppedTail, DocumentText, Body, UnitsText;
    TailDropped();
    DropChar(':', AroundTail());
    DropUnitsTrailing(us, ":" + AroundTail());
    DropChar('"', UnitsText(us, "\"" + (":" + AroundTail())));
    DropChar('{', StringText(us, ":" + AroundTail()));
    var init := Body(us[..|us| - 1]);
    assert init + ("\\" + (":" + DroppedTail())) == (init + "\\:") + DroppedTail();
  }

  lemma DropEmpty()
    ensures DropEscapedQuotes("") == ""
  {
  }

  /** A string token that swallows a brace's quote: what is left of the document behind it. */
  lemma MisreadSkeleton(body: string)
    requires InsideString(body) && body != "" && body[|body| - 1] == ':'
    ensures Reduce("{" + ("\"" + (body + DroppedTail()))) == ['{', '}', SENTINEL, '}']
  {
    hide Reduce, InsideString;
    var tail := "\"" + ("," + (KEY + ":1}"));
    var x := "}" + tail;
    assert DroppedTail() == "\"" + x;
    ReduceChar('{', "\"" + (body + ("\"" + x)));
    ReduceString(body, x);
    assert AGENT_ID[|AGENT_ID| - 1] != ':';
    ReduceChar('}', tail);
    TailReduces();
  }

  lemma TrailingBackslashMisreads(us: seq<Unit>)
    requires WellFormedUnits(us) && EndsInBackslash(us)
    ensures !Walk(Skeleton(DocumentText("", "", Around(us), "")), 0)
  {
    hide DropEscapedQuotes, Reduce, Walk, DocumentText, Body, Around, DroppedTail;
    AroundDropped(us);
    BodyInsideString(us[..|us| - 1]);
    MisreadSkeleton(Body(us[..|us| - 1]) + "\\:");
    MisreadWalk();
  }

  lemma MisreadWalk()
    ensures !Walk(['{', '}', SENTINEL, '}'], 0)
  {
    assert ['{', '}', SENTINEL, '}'][1..] == ['}', SENTINEL, '}'];
    assert ['}', SENTINEL, '}'][1..] == [SENTINEL, '}'];
    assert [SENTINEL, '}'][1..] == ['}'];
    assert ['}'][1..] == [];
    assert !Walk(['}'], 0);
    assert !Walk([SENTINEL, '}'], 0);
    assert !Walk(['}', SENTINEL, '}'], 1);
  }

  lemma LettersKey()
    ensures WellFormedUnits(Letters("agent_id")) && Denotes(Letters("agent_id")) == CodesOf(AGENT_ID)
    ensures ReadsAsKey(Letters("agent_id"), "")
  {
    hide CodesOf, Denotes;
    PlainKeyText(Letters("agent_id"));
    LettersBody("agent_id");
  }

  lemma AroundHasRootKey(us: seq<Unit>)
    requires WellFormedUnits(us)
    ensures WellFormedMembers(Around(us)) && HasRootKey(Around(us)) && SomeMemberReads(Around(us))
  {
    LettersKey();
    var brace := Letters("}");
    hide Denotes, CodesOf, ReadsAsKey, WellFormedUnits, Letters;
    var last := Around(us).next;
    assert WellFormed(last.value) && WellFormed(Around(us).value);
    assert WellFormedMembers(last) && HasRootKey(last) && SomeMemberReads(last);
  }

  /** "No string ends in a backslash" is exact for a string: there is a document around it that
      is answered right if and only if the string does not end in a backslash. */
  lemma TrailingBackslashIsExact(us: seq<Unit>)
    requires WellFormedUnits(us)
    ensures WellFormedMembers(Around(us)) && HasRootKey(Around(us))
    ensures Walk(Skeleton(DocumentText("", "", Around(us), "")), 0) <==> !EndsInBackslash(us)
  {
    hide Walk, Skeleton;
    AroundHasRootKey(us);
    if EndsInBackslash(us) {
      TrailingBackslashMisreads(us);
    } else {
      AnswerIsAboutRootMembers("", "", Around(us), "");
    }
  }

  lemma {:induction false} LettersBody(s: string)
    requires forall i :: 0 <= i < |s| ==> WellFormedUnit(Plain(s[i]))
    ensures Body(Letters(s)) == s
  {
    if s != "" {
      LettersBody(s[1..]);
      assert Letters(s)[1..] == Letters(s[1..]);
    }
  }

  lemma EscapeShows(key: seq<Unit>)
    requires WellFormedUnits(key) && key != [] && !key[0].Plain? && key[0] != Escape('"')
    ensures '\\' in Body(key)
  {
    assert UnitBody(key[0])[0] == '\\';
    assert Body(key)[0] == '\\';
  }

  lemma {:induction false} SpelledPlainly(key: seq<Unit>)
    requires WellFormedUnits(key) && '\\' !in Body(key)
    ensures |Denotes(key)| == |key| && |Body(key)| <= |key|
    ensures |Body(key)| == |key| ==> AllPlain(key)
  {
    if key != [] {
      assert Body(key)[|UnitBody(key[0])|..] == Body(key[1..]);
      SpelledPlainly(key[1..]);
      if !key[0].Plain? && key[0] != Escape('"') {
        EscapeShows(key);
      }
    }
  }

  /** The condition on keys is exact: a key and its gap are judged rightly if and only if they read
      right. */
  lemma KeyReadRightIff(key: seq<Unit>, gap: string)
    requires WellFormedUnits(key)
    ensures (ReadsAsKey(key, gap) == (Denotes(key) == CodesOf(AGENT_ID))) <==> ReadsRight(key, gap)
  {
    if ReadsRight(key, gap) {
      ReadsRightKey(key, gap);
    } else if ReadsAsKey(key, gap) && Denotes(key) == CodesOf(AGENT_ID) {
      SpelledPlainly(key);
    }
  }

  /** A document with one root member. */
  function Single(key: seq<Unit>, gap: string): Members {
    Member("", key, gap, "", Literal("1"), "", NoMembers)
  }

  /** And a document with that one key is answered rightly if and only if the key reads right. */
  lemma KeyConditionIsExact(key: seq<Unit>, gap: string)
    requires WellFormedUnits(key) && !EndsInBackslash(key) && White(gap)
    ensures WellFormedMembers(Single(key, gap))
    ensures (Walk(Skeleton(DocumentText("", "", Single(key, gap), "")), 0) <==> HasRootKey(Single(key, gap)))
            <==> ReadsRight(key, gap)
  {
    hide Walk, Skeleton, DocumentText, ReadsAsKey, ReadsRight, Denotes, CodesOf;
    var ms := Single(key, gap);
    assert WellFormed(ms.value);
    assert !SomeMemberReads(ms.next) && !HasRootKey(ms.next);
    assert HasRootKey(ms) <==> Denotes(ms.key) == CodesOf(AGENT_ID);
    AnswerIsAboutRootMembers("", "", ms, "");
    KeyReadRightIff(key, gap);
  }

  lemma {:induction false} MisreadKeyShows(ms: Members)
    requires WellFormedMembers(ms) && !RootKeysReadRight(ms)
    ensures SomeMemberReads(ms) || HasRootKey(ms)
  {
    hide ReadsAsKey, Denotes, CodesOf;
    if ReadsRight(ms.key, ms.gap) {
      MisreadKeyShows(ms.next);
    }
  }

  /** For whole documents whose strings do not end in a backslash: the answer is right if and only if
      every root key reads right, or one is taken for `agent_id` and one, the same or another, denotes
      it. */
  lemma AnswerRightIff(before: string, pad: string, ms: Members, after: string)
    requires White(before) && White(pad) && White(after) && WellFormedMembers(ms)
    requires NoTrailingBackslashMembers(ms)
    ensures (Walk(Skeleton(DocumentText(before, pad, ms, after)), 0) <==> HasRootKey(ms))
            <==> RootKeysReadRight(ms) || (SomeMemberReads(ms) && HasRootKey(ms))
  {
    hide Walk, Skeleton, DocumentText, RootKeysReadRight, SomeMemberReads, HasRootKey;
    AnswerIsAboutRootMembers(before, pad, ms, after);
    if RootKeysReadRight(ms) {
      RootKeysAreJudged(ms);
    } else {
      MisreadKeyShows(ms);
    }
  }

  /** A key on another line than its colon is not seen. */
  lemma MisreadSplitKey()
    ensures var key := Letters("agent_id");
            WellFormedUnits(key) && !ReadsAsKey(key, "\n") && Denotes(key) == CodesOf(AGENT_ID)
  {
    LettersKey();
    assert '\n' in "\n";
  }

  /** A key that only prints like `agent_id` once its escaped quote is dropped. */
  lemma MisreadQuotedKey()
    ensures var key := [Escape('"')] + Letters("agent_id");
            WellFormedUnits(key) && Body(key) == AGENT_ID && Denotes(key) != CodesOf(AGENT_ID)
  {
    var key := [Escape('"')] + Letters("agent_id");
    assert key[1..] == Letters("agent_id");
    LettersBody("agent_id");
    assert Denotes(key)[0] == 34;
  }

  function CodedKey(): seq<Unit> { Letters("agent") + ([Unicode("005f")] + Letters("id")) }

  lemma CodedKeyDenotes()
    ensures WellFormedUnits(CodedKey()) && Denotes(CodedKey()) == CodesOf(AGENT_ID)
  {
    UnderscoreDenotes();
    LettersBody("agent");
    LettersBody("id");
    PlainKeyText(Letters("agent"));
    PlainKeyText(Letters("id"));
    hide Denotes, Letters;
    DenotesConcat([Unicode("005f")], Letters("id"));
    DenotesConcat(Letters("agent"), [Unicode("005f")] + Letters("id"));
    assert CodesOf("agent") + ([95] + CodesOf("id")) == CodesOf(AGENT_ID);
  }

  lemma UnderscoreDenotes()
    ensures WellFormedUnits([Unicode("005f")]) && Denotes([Unicode("005f")]) == [95]
  {
    assert [Unicode("005f")][1..] == [];
  }

  /** A key that denotes `agent_id` through a Unicode escape. */
  lemma MisreadCodedKey()
    ensures WellFormedUnits(CodedKey()) && Body(CodedKey()) != AGENT_ID && Denotes(CodedKey()) == CodesOf(AGENT_ID)
  {
    CodedKeyDenotes();
    assert CodedKey()[5] == Unicode("005f");
    hide Denotes, CodesOf;
    if Body(CodedKey()) == AGENT_ID {
      SpelledPlainly(CodedKey());
    }
  }
}
