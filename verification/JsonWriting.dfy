/**
 What the writers print are layouts of the same tokens, so whatever is printed is
 read back, and the layout never matters.
 */
module JsonWriting {
  import opened Bytes
  import opened JsonText
  import opened JsonNumber
  import opened JsonValue
  import opened JsonLayout
  import opened JsonWriter
  import opened JsonStyled
  import G = JsonGrammar
  import JsonRoundTrip

  // ---------------------------------------------------------------- putting layouts together

  lemma LaysToken(text: bytes, tokens: seq<bytes>, token: bytes)
    requires Lays(text, tokens)
    ensures Lays(text + token, tokens + [token])
  {
    TokenLays(token);
    LaysConcat(text, tokens, token, [token]);
  }

  lemma LaysBlank(text: bytes, tokens: seq<bytes>, gap: bytes)
    requires Lays(text, tokens) && Blank(gap)
    ensures Lays(text + gap, tokens)
  {
    BlankLays(gap);
    LaysConcat(text, tokens, gap, []);
    assert tokens + [] == tokens;
  }

  lemma BlankToken(gap: bytes, token: bytes)
    requires Blank(gap)
    ensures Lays(gap + token, [token])
  {
    BlankLays(gap);
    LaysToken(gap, [], token);
    assert [] + [token] == [token];
  }

  lemma Regroup(a: bytes, b: bytes, c: bytes, d: bytes)
    ensures a + b + c + d == a + (b + c + d) && a + b + c == a + (b + c)
  {
  }

  // ---------------------------------------------------------------- FastWriter

  lemma ColonLays(o: FastOptions)
    ensures Lays(FastColon(o), [[COLON]])
  {
    TokenLays([COLON]);
    LaysBlank([COLON], [[COLON]], [SPACE]);
  }

  lemma {:induction false} FastLays(o: FastOptions, v: Value)
    requires Printable(v) && !o.dropNullPlaceholders
    ensures Lays(FastText(o, v), Tokens(v))
    decreases v, 0
  {
    hide Lays;
    match v {
      case Array(items) =>
        TokenLays([LBRACKET]);
        TokenLays([RBRACKET]);
        if items == [] {
          LaysToken([LBRACKET], [[LBRACKET]], [RBRACKET]);
          assert [LBRACKET] + FastItems(o, items) + [RBRACKET] == [LBRACKET] + [RBRACKET];
        } else {
          FastItemsLay(o, items);
          LaysConcat([LBRACKET], [[LBRACKET]], FastItems(o, items) + [RBRACKET], ItemsTokens(items));
          Regroup([LBRACKET], FastItems(o, items), [RBRACKET], []);
        }
      case Object(members) =>
        TokenLays([LBRACE]);
        TokenLays([RBRACE]);
        if members == [] {
          LaysToken([LBRACE], [[LBRACE]], [RBRACE]);
          assert [LBRACE] + FastMembers(o, members) + [RBRACE] == [LBRACE] + [RBRACE];
        } else {
          FastMembersLay(o, members);
          LaysConcat([LBRACE], [[LBRACE]], FastMembers(o, members) + [RBRACE], MembersTokens(members));
          Regroup([LBRACE], FastMembers(o, members), [RBRACE], []);
        }
      case Real(_) => assert false;
      case _ => TokenLays(FastText(o, v));
    }
  }

  lemma {:induction false} FastItemsLay(o: FastOptions, items: seq<Value>)
    requires items != [] && PrintableItems(items) && !o.dropNullPlaceholders
    ensures Lays(FastItems(o, items) + [RBRACKET], ItemsTokens(items))
    decreases items, 1
  {
    hide Lays, FastText, Tokens;
    FastLays(o, items[0]);
    FastMoreLays(o, items);
    LaysConcat(FastText(o, items[0]), Tokens(items[0]), FastMore(o, items[1..]) + [RBRACKET], ElementTail(items));
    Regroup(FastText(o, items[0]), FastMore(o, items[1..]), [RBRACKET], []);
  }

  lemma {:induction false} FastMoreLays(o: FastOptions, items: seq<Value>)
    requires items != [] && PrintableItems(items) && !o.dropNullPlaceholders
    ensures Lays(FastMore(o, items[1..]) + [RBRACKET], ElementTail(items))
    decreases items, 0
  {
    hide Lays, FastText, Tokens;
    if |items| == 1 {
      TokenLays([RBRACKET]);
      assert [] + [RBRACKET] == [RBRACKET];
    } else {
      var later := items[1..];
      FastItemsLay(o, later);
      TokenLays([COMMA]);
      LaysConcat([COMMA], [[COMMA]], FastItems(o, later) + [RBRACKET], ItemsTokens(later));
      assert FastMore(o, later) + [RBRACKET] == [COMMA] + (FastItems(o, later) + [RBRACKET]);
    }
  }

  lemma {:induction false} FastMembersLay(o: FastOptions, members: seq<Member>)
    requires members != [] && PrintableMembers(members) && !o.dropNullPlaceholders
    ensures Lays(FastMembers(o, members) + [RBRACE], MembersTokens(members))
    decreases members, 1
  {
    hide Lays, FastText, Tokens, Quoted, FastColon, MembersTokens;
    var m := members[0];
    assert PrintableMember(m);
    FastLays(o, m.value);
    TokenLays(Quoted(m.name));
    ColonLays(o);
    FastMoreMembersLay(o, members);
    MemberLays(m, Quoted(m.name), FastColon(o), FastText(o, m.value), FastMoreMembers(o, members[1..]) + [RBRACE],
      members);
    assert FastMembers(o, members) + [RBRACE]
        == Quoted(m.name) + FastColon(o) + FastText(o, m.value) + (FastMoreMembers(o, members[1..]) + [RBRACE]);
  }

  /** Name, colon, value and what follows, one after the other. */
  lemma {:induction false} MemberLays(m: Member, name: bytes, colon: bytes, value: bytes, rest: bytes,
        members: seq<Member>)
    requires members != [] && PrintableMembers(members) && m == members[0] && Printable(m.value)
    requires Lays(name, [Quoted(m.name)]) && Lays(colon, [[COLON]]) && Lays(value, Tokens(m.value))
    requires Lays(rest, AfterTokens(members))
    ensures Lays(name + colon + value + rest, MembersTokens(members))
  {
    hide Lays, Tokens, Quoted, AfterTokens;
    LaysConcat(name, [Quoted(m.name)], colon, [[COLON]]);
    LaysConcat(name + colon, [Quoted(m.name)] + [[COLON]], value, Tokens(m.value));
    LaysConcat(name + colon + value, [Quoted(m.name)] + [[COLON]] + Tokens(m.value), rest, AfterTokens(members));
    assert [Quoted(m.name)] + [[COLON]] + Tokens(m.value) + AfterTokens(members) == MembersTokens(members);
  }

  lemma {:induction false} FastMoreMembersLay(o: FastOptions, members: seq<Member>)
    requires members != [] && PrintableMembers(members) && !o.dropNullPlaceholders
    ensures Lays(FastMoreMembers(o, members[1..]) + [RBRACE], AfterTokens(members))
    decreases members, 0
  {
    hide Lays, FastMember, MembersTokens;
    if |members| == 1 {
      TokenLays([RBRACE]);
      assert [] + [RBRACE] == [RBRACE];
    } else {
      var later := members[1..];
      FastMembersLay(o, later);
      TokenLays([COMMA]);
      LaysConcat([COMMA], [[COMMA]], FastMembers(o, later) + [RBRACE], MembersTokens(later));
      assert FastMoreMembers(o, later) + [RBRACE] == [COMMA] + (FastMembers(o, later) + [RBRACE]);
    }
  }

  // ---------------------------------------------------------------- the styled writer

  /** White-space indentation, a colon that may be padded, and "null" for null. */
  ghost predicate Layoutable(s: Style) {
    && Blank(s.indentation) && Blank(s.endingLineFeedSymbol)
    && s.nullSymbol == NULL_TEXT && Lays(s.colonSymbol, [[COLON]])
  }

  lemma RepeatBlank(t: bytes, n: nat)
    requires Blank(t)
    ensures Blank(Repeat(t, n))
  {
  }

  lemma NewLineBlank(s: Style, depth: nat)
    requires Layoutable(s)
    ensures Blank(NewLine(s, depth))
  {
    RepeatBlank(s.indentation, depth);
  }

  lemma {:induction false} FlatLays(s: Style, v: Value)
    requires Layoutable(s) && Printable(v) && IsFlat(v)
    ensures Lays(FlatText(s, v), Tokens(v))
  {
    hide Lays, Layoutable;
    assert s.nullSymbol == NULL_TEXT by { LayoutableNull(s); }
    match v {
      case Array(_) =>
        TokenLays([LBRACKET]);
        LaysToken([LBRACKET], [[LBRACKET]], [RBRACKET]);
        assert [LBRACKET] + [RBRACKET] == [LBRACKET, RBRACKET];
      case Object(_) =>
        TokenLays([LBRACE]);
        LaysToken([LBRACE], [[LBRACE]], [RBRACE]);
        assert [LBRACE] + [RBRACE] == [LBRACE, RBRACE];
      case Real(_) => assert false;
      case _ => TokenLays(FlatText(s, v));
    }
  }

  lemma LayoutableNull(s: Style)
    requires Layoutable(s)
    ensures s.nullSymbol == NULL_TEXT
  {
  }

  lemma IndentLays(s: Style, depth: nat, indented: bool, token: bytes)
    requires Layoutable(s)
    ensures Lays(IndentUnless(s, depth, indented) + token, [token])
  {
    hide Lays, NewLine;
    NewLineBlank(s, depth);
    BlankToken(IndentUnless(s, depth, indented), token);
  }

  lemma {:induction false} StyledLays(s: Style, v: Value, depth: nat, indented: bool)
    requires Layoutable(s) && Printable(v)
    ensures Lays(Styled(s, v, depth, indented), Tokens(v))
    decreases v, 0
  {
    hide Lays, Layoutable, Styled, Tokens, NewLine, Breaks;
    if IsFlat(v) {
      FlatLays(s, v);
      StyledFlat(s, v, depth, indented);
    } else if v.Array? {
      if Breaks(s, v.items) {
        BrokenLays(s, v, depth, indented);
      } else {
        OnOneLineLays(s, v, depth, indented);
      }
    } else {
      ObjectLays(s, v, depth, indented);
    }
  }

  lemma {:induction false} BrokenLays(s: Style, v: Value, depth: nat, indented: bool)
    requires Layoutable(s) && Printable(v) && v.Array? && v.items != [] && Breaks(s, v.items)
    ensures Lays(Styled(s, v, depth, indented), Tokens(v))
    decreases v.items, 4
  {
    hide Lays, Layoutable, Styled, NewLine, Breaks, StyledElements, ItemsTokens;
    var open := IndentUnless(s, depth, indented) + [LBRACKET];
    var rest := StyledElements(s, v.items, depth + 1) + (NewLine(s, depth) + [RBRACKET]);
    IndentLays(s, depth, indented, [LBRACKET]);
    NewLineBlank(s, depth);
    ElementsLay(s, v.items, depth + 1, NewLine(s, depth));
    LaysConcat(open, [[LBRACKET]], rest, ItemsTokens(v.items));
    StyledBroken(s, v, depth, indented);
    Regroup(open, StyledElements(s, v.items, depth + 1), NewLine(s, depth) + [RBRACKET], []);
  }

  /** The elements one a line, then the closing bracket after `gap`. */
  lemma {:induction false} ElementsLay(s: Style, items: seq<Value>, depth: nat, gap: bytes)
    requires Layoutable(s) && items != [] && PrintableItems(items) && Blank(gap)
    ensures Lays(StyledElements(s, items, depth) + (gap + [RBRACKET]), ItemsTokens(items))
    decreases items, 3
  {
    hide Lays, Layoutable, Styled, NewLine, Tokens, ElementTail;
    var text, more := Styled(s, items[0], depth, true), StyledMore(s, items[1..], depth) + (gap + [RBRACKET]);
    NewLineBlank(s, depth);
    BlankLays(NewLine(s, depth));
    StyledLays(s, items[0], depth, true);
    LaysConcat(NewLine(s, depth), [], text, Tokens(items[0]));
    assert [] + Tokens(items[0]) == Tokens(items[0]);
    MoreLays(s, items, depth, gap);
    LaysConcat(NewLine(s, depth) + text, Tokens(items[0]), more, ElementTail(items));
    assert StyledElements(s, items, depth) + (gap + [RBRACKET]) == NewLine(s, depth) + text + more;
  }

  lemma {:induction false} MoreLays(s: Style, items: seq<Value>, depth: nat, gap: bytes)
    requires Layoutable(s) && items != [] && PrintableItems(items) && Blank(gap)
    ensures Lays(StyledMore(s, items[1..], depth) + (gap + [RBRACKET]), ElementTail(items))
    decreases items, 2
  {
    hide Lays, Layoutable, Styled, NewLine, Tokens, ItemsTokens;
    if |items| == 1 {
      BlankToken(gap, [RBRACKET]);
      assert [] + (gap + [RBRACKET]) == gap + [RBRACKET];
    } else {
      var later := items[1..];
      ElementsLay(s, later, depth, gap);
      TokenLays([COMMA]);
      LaysConcat([COMMA], [[COMMA]], StyledElements(s, later, depth) + (gap + [RBRACKET]), ItemsTokens(later));
      MoreStep(s, later, depth);
      assert [COMMA] + StyledElements(s, later, depth) + (gap + [RBRACKET])
          == [COMMA] + (StyledElements(s, later, depth) + (gap + [RBRACKET]));
    }
  }

  lemma MoreStep(s: Style, items: seq<Value>, depth: nat)
    requires items != []
    ensures StyledMore(s, items, depth) == [COMMA] + StyledElements(s, items, depth)
  {
    hide Styled, NewLine;
  }

  lemma {:induction false} OnOneLineLays(s: Style, v: Value, depth: nat, indented: bool)
    requires Layoutable(s) && Printable(v) && v.Array? && v.items != [] && !Breaks(s, v.items)
    ensures Lays(Styled(s, v, depth, indented), Tokens(v))
    decreases v.items, 4
  {
    StyledOnOneLine(s, v, depth, indented);
    hide Lays, Layoutable, Styled, Breaks, FlatTexts, OneLine, AllFlat, ItemsTokens, Pad;
    var body := OneLine(s, FlatTexts(s, v.items));
    PadBlank(s);
    TokenLays([LBRACKET]);
    LaysBlank([LBRACKET], [[LBRACKET]], Pad(s));
    OneLineLays(s, v.items);
    LaysConcat([LBRACKET] + Pad(s), [[LBRACKET]], body + (Pad(s) + [RBRACKET]), ItemsTokens(v.items));
    Regroup([LBRACKET] + Pad(s), body, Pad(s) + [RBRACKET], []);
  }

  lemma PadBlank(s: Style)
    ensures Blank(Pad(s))
  {
  }

  lemma {:induction false} OneLineLays(s: Style, items: seq<Value>)
    requires Layoutable(s) && items != [] && PrintableItems(items) && AllFlat(items)
    ensures Lays(OneLine(s, FlatTexts(s, items)) + (Pad(s) + [RBRACKET]), ItemsTokens(items))
    decreases items, 1
  {
    hide Lays, Layoutable, FlatText, Tokens, Pad, ElementTail;
    var texts := FlatTexts(s, items);
    FlatLays(s, items[0]);
    assert texts[1..] == FlatTexts(s, items[1..]);
    var more := OneLineMore(s, texts[1..]) + (Pad(s) + [RBRACKET]);
    OneLineMoreLays(s, items);
    LaysConcat(texts[0], Tokens(items[0]), more, ElementTail(items));
    assert OneLine(s, texts) + (Pad(s) + [RBRACKET]) == texts[0] + more;
  }

  lemma {:induction false} OneLineMoreLays(s: Style, items: seq<Value>)
    requires Layoutable(s) && items != [] && PrintableItems(items) && AllFlat(items)
    ensures Lays(OneLineMore(s, FlatTexts(s, items[1..])) + (Pad(s) + [RBRACKET]), ElementTail(items))
    decreases items, 0
  {
    hide Lays, Layoutable, FlatText, Tokens, Pad, ItemsTokens;
    PadBlank(s);
    if |items| == 1 {
      BlankToken(Pad(s), [RBRACKET]);
      assert [] + (Pad(s) + [RBRACKET]) == Pad(s) + [RBRACKET];
    } else {
      var later := items[1..];
      var texts := FlatTexts(s, later);
      var tail := Pad(s) + [RBRACKET];
      OneLineLays(s, later);
      TokenLays([COMMA]);
      LaysBlank([COMMA], [[COMMA]], Pad(s));
      LaysConcat([COMMA] + Pad(s), [[COMMA]], OneLine(s, texts) + tail, ItemsTokens(later));
      assert OneLineMore(s, texts) + tail == [COMMA] + Pad(s) + (OneLine(s, texts) + tail);
    }
  }

  lemma {:induction false} ObjectLays(s: Style, v: Value, depth: nat, indented: bool)
    requires Layoutable(s) && Printable(v) && v.Object? && v.members != []
    ensures Lays(Styled(s, v, depth, indented), Tokens(v))
    decreases v.members, 4
  {
    hide Lays, Layoutable, Styled, NewLine, StyledMembers, MembersTokens;
    var open := IndentUnless(s, depth, indented) + [LBRACE];
    var rest := StyledMembers(s, v.members, depth + 1) + (NewLine(s, depth) + [RBRACE]);
    IndentLays(s, depth, indented, [LBRACE]);
    NewLineBlank(s, depth);
    MembersLay(s, v.members, depth + 1, NewLine(s, depth));
    LaysConcat(open, [[LBRACE]], rest, MembersTokens(v.members));
    StyledObject(s, v, depth, indented);
    Regroup(open, StyledMembers(s, v.members, depth + 1), NewLine(s, depth) + [RBRACE], []);
  }

  lemma LayoutableColon(s: Style)
    requires Layoutable(s)
    ensures Lays(s.colonSymbol, [[COLON]])
  {
  }

  lemma {:induction false} MembersLay(s: Style, members: seq<Member>, depth: nat, gap: bytes)
    requires Layoutable(s) && members != [] && PrintableMembers(members) && Blank(gap)
    ensures Lays(StyledMembers(s, members, depth) + (gap + [RBRACE]), MembersTokens(members))
    decreases members, 3
  {
    hide Lays, Layoutable, Styled, NewLine, Tokens, Quoted, MembersTokens, AfterTokens;
    var m := members[0];
    assert PrintableMember(m);
    var more := StyledMoreMembers(s, members[1..], depth) + (gap + [RBRACE]);
    NewLineBlank(s, depth);
    BlankToken(NewLine(s, depth), Quoted(m.name));
    LayoutableColon(s);
    StyledLays(s, m.value, depth, false);
    MoreMembersLay(s, members, depth, gap);
    MemberLays(m, NewLine(s, depth) + Quoted(m.name), s.colonSymbol, Styled(s, m.value, depth, false), more, members);
    assert StyledMembers(s, members, depth) + (gap + [RBRACE]) == StyledMember(s, m, depth) + more;
  }

  lemma {:induction false} MoreMembersLay(s: Style, members: seq<Member>, depth: nat, gap: bytes)
    requires Layoutable(s) && members != [] && PrintableMembers(members) && Blank(gap)
    ensures Lays(StyledMoreMembers(s, members[1..], depth) + (gap + [RBRACE]), AfterTokens(members))
    decreases members, 2
  {
    hide Lays, Layoutable, StyledMember, MembersTokens;
    if |members| == 1 {
      BlankToken(gap, [RBRACE]);
      assert [] + (gap + [RBRACE]) == gap + [RBRACE];
    } else {
      var later := members[1..];
      MembersLay(s, later, depth, gap);
      TokenLays([COMMA]);
      LaysConcat([COMMA], [[COMMA]], StyledMembers(s, later, depth) + (gap + [RBRACE]), MembersTokens(later));
      MoreMembersStep(s, later, depth);
      assert [COMMA] + StyledMembers(s, later, depth) + (gap + [RBRACE])
          == [COMMA] + (StyledMembers(s, later, depth) + (gap + [RBRACE]));
    }
  }

  lemma MoreMembersStep(s: Style, members: seq<Member>, depth: nat)
    requires members != []
    ensures StyledMoreMembers(s, members, depth) == [COMMA] + StyledMembers(s, members, depth)
  {
    hide StyledMember;
  }

  // ---------------------------------------------------------------- documents

  /** The document `FastWriter::write` returns. */
  function FastDocument(o: FastOptions, v: Value): bytes {
    FastText(o, v) + if o.omitEndingLineFeed then [] else [LF]
  }

  /** The document `BuiltStyledStreamWriter::write` prints. */
  function StyledDocument(s: Style, v: Value): bytes {
    Styled(s, v, 0, true) + s.endingLineFeedSymbol
  }

  lemma {:induction false} FastDocumentLays(o: FastOptions, v: Value)
    requires Printable(v) && !o.dropNullPlaceholders
    ensures Lays(FastDocument(o, v), Tokens(v))
  {
    FastLays(o, v);
    LaysBlank(FastText(o, v), Tokens(v), if o.omitEndingLineFeed then [] else [LF]);
  }

  lemma {:induction false} StyledDocumentLays(s: Style, v: Value)
    requires Printable(v) && Layoutable(s)
    ensures Lays(StyledDocument(s, v), Tokens(v))
  {
    StyledLays(s, v, 0, true);
    LaysBlank(Styled(s, v, 0, true), Tokens(v), s.endingLineFeedSymbol);
  }

  /** What reading the printed value `v` gives. */
  predicate ReadsBack(inp: G.Input, root: G.Node, v: Value) {
    var o := G.ParseDocument(inp, root);
    if Depth(v) <= inp.features.stackLimit then
      o.Finished? && o.ok && o.errors == [] && G.ValueOf(o.root) == Retagged(v)
    else o.Threw?
  }

  /** Whatever `FastWriter` prints is read back, under any settings. */
  lemma {:induction false} FastRoundTrip(o: FastOptions, v: Value, inp: G.Input, root: G.Node)
    requires Printable(v) && InMapOrder(v) && !o.dropNullPlaceholders && inp.doc == FastDocument(o, v)
    requires inp.features.strictRoot ==> v.Array? || v.Object?
    ensures ReadsBack(inp, root, v)
  {
    FastDocumentLays(o, v);
    MapOrderIsDistinct(v);
    MapOrderIsKept(v);
    JsonRoundTrip.LayoutRoundTrip(inp, v, root);
  }

  /** Whatever the styled writer prints is read back, under any settings. */
  lemma {:induction false} StyledRoundTrip(s: Style, v: Value, inp: G.Input, root: G.Node)
    requires Printable(v) && InMapOrder(v) && Layoutable(s) && inp.doc == StyledDocument(s, v)
    requires inp.features.strictRoot ==> v.Array? || v.Object?
    ensures ReadsBack(inp, root, v)
  {
    StyledDocumentLays(s, v);
    MapOrderIsDistinct(v);
    MapOrderIsKept(v);
    JsonRoundTrip.LayoutRoundTrip(inp, v, root);
  }

  // ---------------------------------------------------------------- builder settings

  datatype WriterSettings = WriterSettings(indentation: bytes, commentStyle: CommentStyle,
                                           enableYamlCompatibility: bool, dropNullPlaceholders: bool)

  /** `StreamWriterBuilder::newStreamWriter`. */
  function NewStreamWriter(w: WriterSettings, showDouble: Double -> bytes): Style {
    Style(w.indentation, w.commentStyle,
          if w.enableYamlCompatibility then [COLON, SPACE]
          else if w.indentation == [] then [COLON]
          else [SPACE, COLON, SPACE],
          if w.dropNullPlaceholders then [] else NULL_TEXT, [], showDouble)
  }

  /** `StreamWriterBuilder::setDefaults`. */
  const DEFAULT_SETTINGS := WriterSettings([TAB], AllComments, false, false)

  /** A builder with white-space indentation that keeps nulls makes such a writer. */
  lemma {:induction false} BuilderIsLayoutable(w: WriterSettings, showDouble: Double -> bytes)
    requires Blank(w.indentation) && !w.dropNullPlaceholders
    ensures Layoutable(NewStreamWriter(w, showDouble))
  {
    TokenLays([COLON]);
    LaysBlank([COLON], [[COLON]], [SPACE]);
    BlankToken([SPACE], [COLON]);
    LaysBlank([SPACE] + [COLON], [[COLON]], [SPACE]);
    assert [SPACE] + [COLON] + [SPACE] == [SPACE, COLON, SPACE];
  }
}
