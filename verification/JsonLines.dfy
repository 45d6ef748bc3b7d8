/**
 The white space of the styled writer: what a new line is, when an array stays on one
 line, and a whole document written out.
 */
module JsonLines {
  import opened Bytes
  import opened JsonText
  import opened JsonNumber
  import opened JsonValue
  import opened JsonLayout
  import opened JsonStyled
  import opened JsonWriter
  import JsonWriting

  /** A new line is a line feed and one unit of indentation for each depth; without a
      unit there are no lines. */
  lemma {:induction false} NewLineIs(s: Style, depth: nat, j: nat)
    requires j < depth
    ensures s.indentation == [] ==> NewLine(s, depth) == []
    ensures var u, t := s.indentation, NewLine(s, depth);
            u != [] ==>
              && |t| == 1 + depth * |u| && t[0] == 10
              && 1 + j * |u| <= 1 + (j + 1) * |u| <= |t| && t[1 + j * |u|..1 + (j + 1) * |u|] == u
  {
    RepeatAt(s.indentation, depth, j);
    var u, r := s.indentation, Repeat(s.indentation, depth);
    if u != [] {
      assert NewLine(s, depth) == [10] + r;
      assert NewLine(s, depth)[1 + j * |u|..1 + (j + 1) * |u|] == r[j * |u|..(j + 1) * |u|];
    }
  }

  lemma {:induction false} RepeatAt(u: bytes, n: nat, j: nat)
    requires j < n
    ensures 0 <= j * |u| <= (j + 1) * |u| <= |Repeat(u, n)| && Repeat(u, n)[j * |u|..(j + 1) * |u|] == u
    decreases n
  {
    var front := Repeat(u, n - 1);
    assert |front| == (n - 1) * |u|;
    if j < n - 1 {
      RepeatAt(u, n - 1, j);
      assert (front + u)[j * |u|..(j + 1) * |u|] == front[j * |u|..(j + 1) * |u|];
    } else {
      assert (front + u)[|front|..|front| + |u|] == u;
    }
  }

  // ---------------------------------------------------------------- arrays on one line

  /** An array as it stands on one line. */
  function Line(s: Style, items: seq<Value>): bytes
    requires AllFlat(items)
  {
    [91] + Pad(s) + OneLine(s, FlatTexts(s, items)) + Pad(s) + [93]
  }

  function Lengths(texts: seq<bytes>): nat {
    if texts == [] then 0 else Lengths(texts[..|texts| - 1]) + |texts[|texts| - 1]|
  }

  lemma {:induction false} LengthsFront(texts: seq<bytes>)
    requires texts != []
    ensures Lengths(texts) == |texts[0]| + Lengths(texts[1..])
    decreases |texts|
  {
    if |texts| > 1 {
      var front := texts[..|texts| - 1];
      LengthsFront(front);
      assert front[1..] == texts[1..][..|texts| - 2];
    }
  }

  lemma {:induction false} MoreLength(s: Style, texts: seq<bytes>)
    requires s.indentation != []
    ensures |OneLineMore(s, texts)| == Lengths(texts) + 2 * |texts|
  {
    if texts != [] {
      LengthsFront(texts);
      MoreLength(s, texts[1..]);
    }
  }

  /** The length of the line: the texts, a comma and a space between them, and brackets
      with a space inside each. */
  lemma LineLengthIs(s: Style, items: seq<Value>)
    requires AllFlat(items) && items != [] && s.indentation != []
    ensures |Line(s, items)| == 4 + 2 * (|items| - 1) + Lengths(FlatTexts(s, items))
  {
    var texts := FlatTexts(s, items);
    LengthsFront(texts);
    MoreLength(s, texts[1..]);
  }

  lemma LengthsTo(texts: seq<bytes>, n: nat)
    requires 0 < n <= |texts|
    ensures Lengths(texts[..n]) == Lengths(texts[..n - 1]) + |texts[n - 1]|
  {
    assert texts[..n][..n - 1] == texts[..n - 1];
  }

  lemma NoWrap(n: nat)
    requires n < 0x1_0000_0000
    ensures Wrap32(n) == n
  {
  }

  lemma CountStep(s: Style, items: seq<Value>, n: nat)
    requires AllFlat(items) && n <= |items|
    ensures Lengths(FlatTexts(s, items)[..0]) == 0
    ensures n == 0 ==> LineLength(s, items, n) == Wrap32(4 + Wrap32(Wrap32(|items| - 1) * 2))
    ensures n > 0 ==>
      LineLength(s, items, n) == Wrap32(LineLength(s, items, n - 1) + Wrap32(|FlatTexts(s, items)[n - 1]|))
  {
    hide Wrap32, FlatText;
    assert FlatTexts(s, items)[..0] == [];
  }

  lemma {:induction false} CountedLength(s: Style, items: seq<Value>, n: nat)
    requires AllFlat(items) && items != [] && n <= |items|
    requires 4 + 2 * (|items| - 1) + Lengths(FlatTexts(s, items)[..n]) < 0x1_0000_0000
    ensures LineLength(s, items, n) == 4 + 2 * (|items| - 1) + Lengths(FlatTexts(s, items)[..n])
    decreases n
  {
    var texts := FlatTexts(s, items);
    hide FlatText, FlatTexts, Lengths, AllFlat, Wrap32, LineLength;
    CountStep(s, items, n);
    if n > 0 {
      LengthsTo(texts, n);
      CountedLength(s, items, n - 1);
      NoWrapOfSum(LineLength(s, items, n - 1), |texts[n - 1]|);
    } else {
      NoWrapAtStart(|items|);
    }
  }

  lemma NoWrapOfSum(a: nat, b: nat)
    requires a + b < 0x1_0000_0000
    ensures Wrap32(a + Wrap32(b)) == a + b
  {
    NoWrap(b);
    NoWrap(a + b);
  }

  lemma NoWrapAtStart(n: nat)
    requires n > 0 && 4 + 2 * (n - 1) < 0x1_0000_0000
    ensures Wrap32(4 + Wrap32(Wrap32(n - 1) * 2)) == 4 + 2 * (n - 1)
  {
    NoWrap(n - 1);
    NoWrap(2 * (n - 1));
    NoWrap(4 + 2 * (n - 1));
  }

  /** An array stays on one line exactly if it holds no filled containers, at most
      twenty-four elements, and the line comes out shorter than 74 characters. */
  lemma StaysOnOneLine(s: Style, items: seq<Value>)
    requires items != [] && s.indentation != [] && |items| < 0x4000_0000
    requires AllFlat(items) ==> |Line(s, items)| < 0x1_0000_0000
    ensures !IsMultiline(s, items) <==> AllFlat(items) && |items| <= 24 && |Line(s, items)| < 74
  {
    if AllFlat(items) {
      var texts := FlatTexts(s, items);
      LineLengthIs(s, items);
      assert texts[..|items|] == texts;
      CountedLength(s, items, |items|);
    }
  }

  /** Without comments `[1, 2]` stands on one line, with spaces just if there is indentation. */
  lemma OneLineArray(s: Style, depth: nat, indented: bool)
    requires s.comments.NoComments?
    ensures Styled(s, Array([Int(1), Int(2)]), depth, indented)
         == if s.indentation == [] then [91, 49, 44, 50, 93] else [91, 32, 49, 44, 32, 50, 32, 93]
  {
    var items := [Int(1), Int(2)];
    assert FlatText(s, Int(1)) == [49] && FlatText(s, Int(2)) == [50];
    var texts: seq<bytes> := FlatTexts(s, items);
    var more: seq<bytes> := texts[1..];
    var none: seq<bytes> := more[1..];
    assert texts[0] == [49] && more[0] == [50] && none == [];
    assert OneLineMore(s, more) == [44] + Pad(s) + [50] + OneLineMore(s, none);
    assert OneLine(s, texts) == [49] + ([44] + Pad(s) + [50]);
    ShortLine(s);
    StyledOnOneLine(s, Array(items), depth, indented);
    hide Styled;
  }

  lemma ShortLine(s: Style)
    ensures !IsMultiline(s, [Int(1), Int(2)])
  {
    var items := [Int(1), Int(2)];
    assert |FlatText(s, items[0])| == 1 && |FlatText(s, items[1])| == 1;
    assert LineLength(s, items, 0) == 6;
    assert LineLength(s, items, 1) == 7;
    assert LineLength(s, items, 2) == 8;
  }

  /** Colons by the settings: " : " by default, ":" without indentation, ": " for YAML; a null
      is "null", or nothing where nulls are dropped. */
  lemma SymbolsAre(w: JsonWriting.WriterSettings, show: Double -> bytes)
    ensures var s := JsonWriting.NewStreamWriter(w, show);
            && s.colonSymbol
               == (if w.enableYamlCompatibility then [58, 32] else if w.indentation == [] then [58] else [32, 58, 32])
            && JsonWriting.StyledDocument(s, Null) == if w.dropNullPlaceholders then [] else [110, 117, 108, 108]
  {
    var s := JsonWriting.NewStreamWriter(w, show);
    assert s.nullSymbol + [] == s.nullSymbol;
  }

  /** `{"a": null}` by the compact writer: a line feed behind it unless that is omitted. */
  lemma FastSymbolsAre(o: FastOptions)
    ensures JsonWriting.FastDocument(o, Object([Member([97], Null)]))
         == [123, 34, 97, 34, 58] + (if o.yamlCompatibility then [32] else [])
            + (if o.dropNullPlaceholders then [] else [110, 117, 108, 108]) + [125]
            + (if o.omitEndingLineFeed then [] else [10])
  {
    var m := Member([97], Null);
    OneMemberText(o, m);
    Names();
    hide Quoted, FastText, FastMember;
    var nothing: bytes := if o.dropNullPlaceholders then [] else [110, 117, 108, 108];
    assert FastMember(o, m) == [34, 97, 34] + FastColon(o) + nothing by {
      NullMember(o);
    }
    hide FastColon;
    var blank: bytes := if o.yamlCompatibility then [32] else [];
    ColonIs(o);
    Assembly(blank, nothing);
  }

  lemma Assembly(blank: bytes, nothing: bytes)
    ensures [123] + ([34, 97, 34] + ([58] + blank) + nothing) + [125] == [123, 34, 97, 34, 58] + blank + nothing + [125]
  {
  }

  lemma ColonIs(o: FastOptions)
    ensures FastColon(o) == [58] + if o.yamlCompatibility then [32] else []
  {
  }

  lemma OneMemberText(o: FastOptions, m: Member)
    ensures FastText(o, Object([m])) == [123] + FastMember(o, m) + [125]
  {
    hide FastMember;
    assert [m][1..] == [];
    assert FastMembers(o, [m]) == FastMember(o, m) + FastMoreMembers(o, []);
  }

  lemma NullMember(o: FastOptions)
    ensures FastMember(o, Member([97], Null))
         == Quoted([97]) + FastColon(o) + (if o.dropNullPlaceholders then [] else [110, 117, 108, 108])
  {
    hide Quoted, FastColon;
  }

  // ---------------------------------------------------------------- a document

  /** `{"a": [1, {}], "b": null}` by a writer with comments and one without. */
  const INNER: seq<Value> := [Int(1), Object([])]
  const OUTER: seq<Member> := [Member([97], Array(INNER)), Member([98], Null)]

  /** With the default settings each element has a line of its own, at its depth. */
  lemma DefaultDocument(show: Double -> bytes)
    ensures JsonWriting.StyledDocument(JsonWriting.NewStreamWriter(JsonWriting.DEFAULT_SETTINGS, show), Object(OUTER))
         == [123, 10, 9, 34, 97, 34, 32, 58, 32] + [10, 9, 91] + [10, 9, 9, 49, 44] + [10, 9, 9, 123, 125] + [10, 9, 93]
            + [44, 10, 9, 34, 98, 34, 32, 58, 32, 110, 117, 108, 108] + [10, 125]
  {
    var s := JsonWriting.NewStreamWriter(JsonWriting.DEFAULT_SETTINGS, show);
    Lines(s);
    InnerLines(s);
    OuterText(s);
    hide Styled, StyledMember, NewLine, OUTER, INNER;
    Assembled();
  }

  lemma Assembled()
    ensures [123] + ([10, 9] + [34, 97, 34, 32, 58, 32] + ([10, 9, 91] + [10, 9, 9, 49, 44] + [10, 9, 9, 123, 125]
                     + [10, 9, 93]) + ([44] + [10, 9] + [34, 98, 34, 32, 58, 32, 110, 117, 108, 108])) + [10] + [125]
         == [123, 10, 9, 34, 97, 34, 32, 58, 32] + [10, 9, 91] + [10, 9, 9, 49, 44] + [10, 9, 9, 123, 125] + [10, 9, 93]
            + [44, 10, 9, 34, 98, 34, 32, 58, 32, 110, 117, 108, 108] + [10, 125]
  {
  }

  lemma Lines(s: Style)
    requires s.indentation == [9]
    ensures NewLine(s, 0) == [10] && NewLine(s, 1) == [10, 9] && NewLine(s, 2) == [10, 9, 9]
  {
    assert Repeat([9], 0) == [];
    assert Repeat([9], 1) == Repeat([9], 0) + [9];
    assert Repeat([9], 2) == Repeat([9], 1) + [9];
  }

  lemma InnerLines(s: Style)
    requires s.indentation == [9] && s.comments.AllComments?
    ensures Styled(s, Array(INNER), 1, false)
         == [10, 9, 91] + [10, 9, 9, 49, 44] + [10, 9, 9, 123, 125] + [10, 9, 93]
  {
    Lines(s);
    StyledBroken(s, Array(INNER), 1, false);
    assert INNER[1..] == [Object([])] && INNER[1..][1..] == [];
    assert Styled(s, Int(1), 2, true) == [49] && Styled(s, Object([]), 2, true) == [123, 125];
    assert StyledMore(s, INNER[1..], 2) == [44] + [10, 9, 9] + [123, 125] + StyledMore(s, [], 2);
    assert StyledElements(s, INNER, 2) == [10, 9, 9] + [49] + StyledMore(s, INNER[1..], 2);
  }

  lemma OuterText(s: Style)
    requires s.colonSymbol == [32, 58, 32] && s.nullSymbol == [110, 117, 108, 108]
    ensures Styled(s, Object(OUTER), 0, true)
         == [123] + (NewLine(s, 1) + [34, 97, 34, 32, 58, 32] + Styled(s, Array(INNER), 1, false)
                     + ([44] + NewLine(s, 1) + [34, 98, 34, 32, 58, 32, 110, 117, 108, 108])) + NewLine(s, 0) + [125]
  {
    hide Quoted, NewLine, Styled, INNER;
    Names();
    StyledFlat(s, Null, 1, false);
    TwoMembers(s, Member([97], Array(INNER)), Member([98], Null));
    PutTogether(NewLine(s, 1), Styled(s, Array(INNER), 1, false));
  }

  lemma PutTogether(line: bytes, inner: bytes)
    ensures line + [34, 97, 34] + [32, 58, 32] + inner == line + [34, 97, 34, 32, 58, 32] + inner
    ensures [44] + (line + [34, 98, 34] + [32, 58, 32] + [110, 117, 108, 108])
         == [44] + line + [34, 98, 34, 32, 58, 32, 110, 117, 108, 108]
  {
  }

  lemma TwoMembers(s: Style, a: Member, b: Member)
    ensures Styled(s, Object([a, b]), 0, true)
         == [123] + (NewLine(s, 1) + Quoted(a.name) + s.colonSymbol + Styled(s, a.value, 1, false)
                     + ([44] + (NewLine(s, 1) + Quoted(b.name) + s.colonSymbol + Styled(s, b.value, 1, false))))
            + NewLine(s, 0) + [125]
  {
    hide Quoted, NewLine;
    assert [a, b][1..] == [b] && [b][1..] == [];
    StyledObject(s, Object([a, b]), 0, true);
    hide Styled;
    var y := StyledMember(s, b, 1);
    assert StyledMoreMembers(s, [], 1) == [];
    assert StyledMoreMembers(s, [b], 1) == [44] + y + [] == [44] + y;
    assert StyledMembers(s, [a, b], 1) == StyledMember(s, a, 1) + ([44] + y);
  }

  lemma Names()
    ensures Quoted([97]) == [34, 97, 34] && Quoted([98]) == [34, 98, 34]
  {
    assert EscapeText([97]) == [97] + EscapeText([]);
    assert EscapeText([98]) == [98] + EscapeText([]);
  }
}
