/**
 `BuiltStyledStreamWriter`, the writer behind `Json::writeString`, on values
 without comments.
 */
module JsonStyled {
  import opened Bytes
  import opened JsonText
  import opened JsonNumber
  import opened JsonValue
  import opened JsonLayout
  import opened JsonWriter

  datatype CommentStyle = NoComments | AllComments

  datatype Style = Style(indentation: bytes, comments: CommentStyle, colonSymbol: bytes, nullSymbol: bytes,
                         endingLineFeedSymbol: bytes, showDouble: Double -> bytes)

  const RIGHT_MARGIN: nat := 74

  // ---------------------------------------------------------------- the text of a value

  function Repeat(t: bytes, n: nat): (r: bytes)
    ensures |r| == n * |t|
  {
    if n == 0 then [] else Repeat(t, n - 1) + t
  }

  /** `writeIndent` at a depth. */
  function NewLine(s: Style, depth: nat): bytes {
    if s.indentation == [] then [] else [LF] + Repeat(s.indentation, depth)
  }

  function IndentUnless(s: Style, depth: nat, indented: bool): bytes {
    if indented then [] else NewLine(s, depth)
  }

  /** Values that print as one piece: everything but non-empty containers. */
  predicate IsFlat(v: Value) {
    (v.Array? ==> v.items == []) && (v.Object? ==> v.members == [])
  }

  function FlatText(s: Style, v: Value): bytes
    requires IsFlat(v)
  {
    match v
    case Null => s.nullSymbol
    case Int(i) => IntText(i)
    case UInt(u) => Digits(u)
    case Real(d) => s.showDouble(d)
    case Str(t) => Quoted(t)
    case Bool(b) => BoolText(b)
    case Array(_) => [LBRACKET, RBRACKET]
    case Object(_) => [LBRACE, RBRACE]
  }

  predicate AllFlat(items: seq<Value>) {
    forall k :: 0 <= k < |items| ==> IsFlat(items[k])
  }

  function FlatTexts(s: Style, items: seq<Value>): (r: seq<bytes>)
    requires AllFlat(items)
    ensures |r| == |items|
  {
    seq(|items|, k requires 0 <= k < |items| => FlatText(s, items[k]))
  }

  function Wrap32(n: int): nat {
    n % 0x1_0000_0000
  }

  /** The line length `isMultilineArray` has counted after `n` elements. */
  function LineLength(s: Style, items: seq<Value>, n: nat): nat
    requires AllFlat(items) && n <= |items|
  {
    if n == 0 then Wrap32(4 + Wrap32(Wrap32(|items| - 1) * 2))
    else Wrap32(LineLength(s, items, n - 1) + Wrap32(|FlatText(s, items[n - 1])|))
  }

  predicate IsMultiline(s: Style, items: seq<Value>) {
    Wrap32(|items| * 3) >= RIGHT_MARGIN || !AllFlat(items) || LineLength(s, items, |items|) >= RIGHT_MARGIN
  }

  predicate Breaks(s: Style, items: seq<Value>) {
    s.comments.AllComments? || IsMultiline(s, items)
  }

  function Pad(s: Style): bytes {
    if s.indentation == [] then [] else [SPACE]
  }

  /** The elements of an array on one line, without the brackets. */
  function OneLine(s: Style, texts: seq<bytes>): bytes {
    if texts == [] then [] else texts[0] + OneLineMore(s, texts[1..])
  }

  function OneLineMore(s: Style, texts: seq<bytes>): bytes {
    if texts == [] then [] else [COMMA] + Pad(s) + texts[0] + OneLineMore(s, texts[1..])
  }

  /** What `writeValue` prints at a depth; `indented` says whether the line is
      already indented. */
  function Styled(s: Style, v: Value, depth: nat, indented: bool): bytes {
    if IsFlat(v) then FlatText(s, v)
    else if v.Array? then
      if Breaks(s, v.items) then
        IndentUnless(s, depth, indented) + [LBRACKET] + StyledElements(s, v.items, depth + 1) +
        NewLine(s, depth) + [RBRACKET]
      else [LBRACKET] + Pad(s) + OneLine(s, FlatTexts(s, v.items)) + Pad(s) + [RBRACKET]
    else
      IndentUnless(s, depth, indented) + [LBRACE] + StyledMembers(s, v.members, depth + 1) +
      NewLine(s, depth) + [RBRACE]
  }

  function StyledElements(s: Style, items: seq<Value>, depth: nat): bytes {
    if items == [] then []
    else NewLine(s, depth) + Styled(s, items[0], depth, true) + StyledMore(s, items[1..], depth)
  }

  function StyledMore(s: Style, items: seq<Value>, depth: nat): bytes {
    if items == [] then []
    else [COMMA] + NewLine(s, depth) + Styled(s, items[0], depth, true) + StyledMore(s, items[1..], depth)
  }

  function StyledMember(s: Style, m: Member, depth: nat): bytes {
    NewLine(s, depth) + Quoted(m.name) + s.colonSymbol + Styled(s, m.value, depth, false)
  }

  function StyledMembers(s: Style, members: seq<Member>, depth: nat): bytes {
    if members == [] then []
    else StyledMember(s, members[0], depth) + StyledMoreMembers(s, members[1..], depth)
  }

  function StyledMoreMembers(s: Style, members: seq<Member>, depth: nat): bytes {
    if members == [] then []
    else [COMMA] + StyledMember(s, members[0], depth) + StyledMoreMembers(s, members[1..], depth)
  }

  /** Whether the line still counts as indented after the value. */
  predicate IndentedAfter(s: Style, v: Value, indented: bool) {
    indented && (IsFlat(v) || (v.Array? && !Breaks(s, v.items)))
  }

  // ---------------------------------------------------------------- the writer

  class BuiltStyledStreamWriter {
    const style: Style
    var sout: bytes
    var childValues: seq<bytes>
    var indentString: bytes
    var addChildValues: bool
    var indented: bool
    ghost var depth: nat

    constructor (style: Style)
      ensures this.style == style && Reusable()
    {
      this.style := style;
      sout, childValues, indentString, addChildValues, indented, depth := [], [], [], false, false, 0;
    }

    /** With comments no texts are ever cached; otherwise some may be left over. */
    ghost predicate Reusable()
      reads this
    {
      style.comments.AllComments? ==> childValues == []
    }

    /** The indentation is that of the depth. */
    ghost predicate Valid()
      reads this
    {
      indentString == Repeat(style.indentation, depth) && Reusable()
    }

    method WriteIndent()
      requires Valid()
      modifies this`sout
      ensures sout == old(sout) + NewLine(style, depth)
    {
      if style.indentation != [] {
        sout := sout + ([LF] + indentString);
      }
    }

    method WriteWithIndent(value: bytes)
      requires Valid()
      modifies this`sout, this`indented
      ensures sout == old(sout) + IndentUnless(style, depth, old(indented)) + value && !indented
    {
      if !indented {
        WriteIndent();
      }
      sout := sout + value;
      indented := false;
    }

    method Indent()
      requires Valid()
      modifies this`indentString, this`depth
      ensures Valid() && depth == old(depth) + 1
    {
      indentString := indentString + style.indentation;
      depth := depth + 1;
    }

    method Unindent()
      requires Valid() && depth > 0
      modifies this`indentString, this`depth
      ensures Valid() && depth == old(depth) - 1
    {
      assert |indentString| >= |style.indentation|;
      indentString := indentString[..|indentString| - |style.indentation|];
      depth := depth - 1;
    }

    method PushValue(value: bytes)
      modifies this`sout, this`childValues
      ensures if addChildValues then childValues == old(childValues) + [value] && sout == old(sout)
              else sout == old(sout) + value && childValues == old(childValues)
    {
      if addChildValues {
        childValues := childValues + [value];
      } else {
        sout := sout + value;
      }
    }

    /** The scalar cases of `writeValue`, and the empty containers. */
    method WriteFlat(value: Value)
      requires IsFlat(value) && InRange(value)
      modifies this`sout, this`childValues
      ensures if addChildValues then childValues == old(childValues) + [FlatText(style, value)] && sout == old(sout)
              else sout == old(sout) + FlatText(style, value) && childValues == old(childValues)
    {
      match value {
        case Null => PushValue(style.nullSymbol);
        case Int(i) =>
          var text := IntToString(i);
          PushValue(text);
        case UInt(u) =>
          var text := UIntToString(u);
          PushValue(text);
        case Real(d) => PushValue(style.showDouble(d));
        case Str(s) =>
          var text := ValueToQuotedString(s);
          PushValue(text);
        case Bool(b) => PushValue(BoolText(b));
        case Array(_) => PushValue([LBRACKET, RBRACKET]);
        case Object(_) => PushValue([LBRACE, RBRACE]);
      }
    }

    /** Caches the texts of a flat array that may fit on one line. */
    method IsMultilineArray(items: seq<Value>) returns (isMultiLine: bool)
      requires Valid() && style.comments.NoComments? && !addChildValues && items != []
      requires |items| <= MAX_UINT32 && forall k :: 0 <= k < |items| ==> InRange(items[k])
      modifies this`childValues, this`sout, this`addChildValues
      ensures isMultiLine == IsMultiline(style, items)
      ensures childValues == [] || (AllFlat(items) && childValues == FlatTexts(style, items))
      ensures !isMultiLine ==> childValues != []
      ensures sout == old(sout) && !addChildValues
    {
      hide FlatTexts, FlatText, LineLength;
      isMultiLine := Wrap32(|items| * 3) >= RIGHT_MARGIN;
      childValues := [];
      if !isMultiLine {
        isMultiLine := HasNestedChild(items);
      }
      if !isMultiLine {
        var lineLength := CacheTexts(items);
        isMultiLine := lineLength >= RIGHT_MARGIN;
      }
    }

    /** Whether an element is a non-empty array or object. */
    method HasNestedChild(items: seq<Value>) returns (found: bool)
      ensures found <==> !AllFlat(items)
    {
      var index := 0;
      found := false;
      while index < |items| && !found
        invariant 0 <= index <= |items|
        invariant if found then index > 0 && !IsFlat(items[index - 1])
                  else forall k :: 0 <= k < index ==> IsFlat(items[k])
      {
        found := !IsFlat(items[index]);
        index := index + 1;
      }
    }

    /** Collects the texts of the elements and counts the length of their line. */
    method CacheTexts(items: seq<Value>) returns (lineLength: nat)
      requires AllFlat(items) && (forall k :: 0 <= k < |items| ==> InRange(items[k])) && childValues == []
      modifies this`childValues, this`sout, this`addChildValues
      ensures childValues == FlatTexts(style, items) && lineLength == LineLength(style, items, |items|)
      ensures sout == old(sout) && !addChildValues
    {
      hide FlatText;
      addChildValues := true;
      lineLength := Wrap32(4 + Wrap32(Wrap32(|items| - 1) * 2));
      var index := 0;
      while index < |items|
        invariant 0 <= index <= |items| && addChildValues && sout == old(sout)
        invariant |childValues| == index
        invariant forall k :: 0 <= k < index ==> childValues[k] == FlatText(style, items[k])
        invariant lineLength == LineLength(style, items, index)
      {
        WriteFlat(items[index]);
        lineLength := Wrap32(lineLength + Wrap32(|childValues[index]|));
        index := index + 1;
      }
      addChildValues := false;
    }

    method WriteValue(value: Value)
      requires Valid() && InRange(value) && !addChildValues
      modifies this
      ensures Valid() && depth == old(depth) && !addChildValues
      ensures sout == old(sout) + Styled(style, value, depth, old(indented))
      ensures indented == IndentedAfter(style, value, old(indented))
      decreases value, 2
    {
      hide Styled, FlatText, Repeat;
      if IsFlat(value) {
        StyledFlat(style, value, depth, indented);
        WriteFlat(value);
      } else if value.Array? {
        WriteArrayValue(value);
      } else {
        WriteObjectValue(value);
      }
    }

    method WriteObjectValue(value: Value)
      requires Valid() && InRange(value) && !addChildValues && value.Object? && value.members != []
      modifies this
      ensures Valid() && depth == old(depth) && !addChildValues
      ensures sout == old(sout) + Styled(style, value, depth, old(indented)) && !indented
      decreases value, 1
    {
      hide Styled, StyledMembers, NewLine, Repeat;
      StyledObject(style, value, depth, indented);
      Chain(sout, IndentUnless(style, depth, indented), [LBRACE], StyledMembers(style, value.members, depth + 1),
            NewLine(style, depth), [RBRACE]);
      WriteWithIndent([LBRACE]);
      Indent();
      WriteMembers(value.members);
      Unindent();
      WriteWithIndent([RBRACE]);
    }

    method WriteMembers(members: seq<Member>)
      requires Valid() && !addChildValues && !indented && members != []
      requires forall k :: 0 <= k < |members| ==> InRange(members[k].value)
      modifies this
      ensures Valid() && depth == old(depth) && !addChildValues && !indented
      ensures sout == old(sout) + StyledMembers(style, members, depth)
      decreases members, 0
    {
      hide Styled, StyledMember, Repeat;
      var it := 0;
      while true
        invariant 0 <= it < |members| && Valid() && depth == old(depth) && !addChildValues && !indented
        invariant old(sout) + StyledMembers(style, members, depth) ==
                  sout + StyledMembers(style, members[it..], depth)
        decreases |members| - it
      {
        MembersTurn(style, members, it, depth, sout);
        WriteMember(members[it]);
        it := it + 1;
        if it == |members| {
          break;
        }
        sout := sout + [COMMA];
      }
    }

    method WriteMember(m: Member)
      requires Valid() && !addChildValues && !indented && InRange(m.value)
      modifies this
      ensures Valid() && depth == old(depth) && !addChildValues && !indented
      ensures sout == old(sout) + StyledMember(style, m, depth)
      decreases m
    {
      hide Styled, Repeat;
      var name := ValueToQuotedString(m.name);
      WriteWithIndent(name);
      sout := sout + style.colonSymbol;
      WriteValue(m.value);
    }

    method WriteArrayValue(value: Value)
      requires Valid() && InRange(value) && !addChildValues && value.Array? && value.items != []
      modifies this
      ensures Valid() && depth == old(depth) && !addChildValues
      ensures sout == old(sout) + Styled(style, value, depth, old(indented))
      ensures indented == IndentedAfter(style, value, old(indented))
      decreases value, 1
    {
      hide Styled, IsMultiline, AllFlat, FlatTexts, StyledElements, Repeat;
      var items := value.items;
      var isMultiLine := style.comments.AllComments?;
      if !isMultiLine {
        isMultiLine := IsMultilineArray(items);
      }
      if isMultiLine {
        WriteBroken(value);
      } else {
        assert |childValues| == |items|;
        WriteOnOneLine(value);
      }
    }

    method WriteBroken(value: Value)
      requires Valid() && InRange(value) && !addChildValues && value.Array? && value.items != []
      requires Breaks(style, value.items)
      requires childValues == [] || (AllFlat(value.items) && childValues == FlatTexts(style, value.items))
      modifies this
      ensures Valid() && depth == old(depth) && !addChildValues && !indented
      ensures sout == old(sout) + Styled(style, value, depth, old(indented))
      decreases value, 0
    {
      hide Styled, IsMultiline, AllFlat, FlatTexts, StyledElements, NewLine, Repeat;
      StyledBroken(style, value, depth, indented);
      Chain(sout, IndentUnless(style, depth, indented), [LBRACKET], StyledElements(style, value.items, depth + 1),
            NewLine(style, depth), [RBRACKET]);
      WriteWithIndent([LBRACKET]);
      Indent();
      WriteElements(value.items, childValues != []);
      Unindent();
      WriteWithIndent([RBRACKET]);
    }

    method WriteOnOneLine(value: Value)
      requires value.Array? && value.items != [] && !Breaks(style, value.items)
      requires childValues == FlatTexts(style, value.items)
      modifies this`sout
      ensures sout == old(sout) + Styled(style, value, depth, indented)
    {
      hide Styled, IsMultiline, AllFlat, FlatTexts, OneLine, Pad;
      StyledOnOneLine(style, value, depth, indented);
      Chain(sout, [LBRACKET], Pad(style), OneLine(style, childValues), Pad(style), [RBRACKET]);
      sout := sout + [LBRACKET];
      sout := sout + Pad(style);
      WriteOneLine(|childValues|);
      sout := sout + Pad(style);
      sout := sout + [RBRACKET];
    }

    /** The loop over the cached texts of a short array. */
    method WriteOneLine(size: nat)
      requires |childValues| == size
      modifies this`sout
      ensures sout == old(sout) + OneLine(style, childValues)
    {
      hide OneLine, OneLineMore, Pad;
      for index := 0 to size
        invariant old(sout) + OneLine(style, childValues) == sout +
                  if index == 0 then OneLine(style, childValues) else OneLineMore(style, childValues[index..])
      {
        OneLineTurn(style, childValues, index, sout);
        if index > 0 {
          sout := sout + ([COMMA] + Pad(style));
        }
        sout := sout + childValues[index];
      }
      assert childValues[size..] == [] && (size == 0 ==> childValues == []);
      OneLineEnd(style);
    }

    /** The loop that prints one element a line, from the cache if there is one. */
    method WriteElements(items: seq<Value>, hasChildValue: bool)
      requires Valid() && !addChildValues && !indented && items != []
      requires forall k :: 0 <= k < |items| ==> InRange(items[k])
      requires hasChildValue ==> AllFlat(items) && childValues == FlatTexts(style, items)
      modifies this
      ensures Valid() && depth == old(depth) && !addChildValues && !indented
      ensures sout == old(sout) + StyledElements(style, items, depth)
      decreases items, 0
    {
      hide Styled, Repeat, FlatTexts, AllFlat, NewLine;
      var index := 0;
      while true
        invariant 0 <= index < |items| && Valid() && depth == old(depth) && !addChildValues && !indented
        invariant hasChildValue ==> childValues == old(childValues)
        invariant old(sout) + StyledElements(style, items, depth) ==
                  sout + StyledElements(style, items[index..], depth)
        decreases |items| - index
      {
        ElementsTurn(style, items, index, depth, sout);
        WriteElement(items, index, hasChildValue);
        index := index + 1;
        if index == |items| {
          break;
        }
        sout := sout + [COMMA];
      }
    }

    method WriteElement(items: seq<Value>, index: nat, hasChildValue: bool)
      requires Valid() && !addChildValues && !indented && index < |items| && InRange(items[index])
      requires hasChildValue ==> AllFlat(items) && childValues == FlatTexts(style, items)
      modifies this
      ensures Valid() && depth == old(depth) && !addChildValues && !indented
      ensures hasChildValue ==> childValues == old(childValues)
      ensures sout == old(sout) + NewLine(style, depth) + Styled(style, items[index], depth, true)
      decreases items[index], 3
    {
      hide Styled, Repeat, NewLine, FlatText;
      if hasChildValue {
        StyledFlat(style, items[index], depth, true);
        WriteWithIndent(childValues[index]);
      } else {
        if !indented {
          WriteIndent();
        }
        indented := true;
        WriteValue(items[index]);
        indented := false;
      }
    }

    method Write(root: Value) returns (text: bytes)
      requires InRange(root) && Reusable()
      modifies this
      ensures text == Styled(style, root, 0, true) + style.endingLineFeedSymbol
      ensures indentString == [] && Reusable()
    {
      hide Styled;
      sout, addChildValues, indented, indentString, depth := [], false, true, [], 0;
      WriteValue(root);
      assert [] + Styled(style, root, 0, true) == Styled(style, root, 0, true);
      sout := sout + style.endingLineFeedSymbol;
      text := sout;
    }
  }

  // ---------------------------------------------------------------- one turn of each loop

  lemma StyledFlat(s: Style, v: Value, depth: nat, indented: bool)
    requires IsFlat(v)
    ensures Styled(s, v, depth, indented) == FlatText(s, v)
  {
  }

  lemma StyledBroken(s: Style, v: Value, depth: nat, indented: bool)
    requires v.Array? && v.items != [] && Breaks(s, v.items)
    ensures Styled(s, v, depth, indented) == IndentUnless(s, depth, indented) + [LBRACKET] +
              StyledElements(s, v.items, depth + 1) + (NewLine(s, depth) + [RBRACKET])
  {
    hide StyledElements, NewLine, IsMultiline;
  }

  lemma StyledOnOneLine(s: Style, v: Value, depth: nat, indented: bool)
    requires v.Array? && v.items != [] && !Breaks(s, v.items)
    ensures AllFlat(v.items)
    ensures Styled(s, v, depth, indented)
        == [LBRACKET] + Pad(s) + OneLine(s, FlatTexts(s, v.items)) + (Pad(s) + [RBRACKET])
  {
    hide OneLine, FlatTexts, Pad;
  }

  /** Five pieces written one by one. */
  lemma Chain(s: bytes, a: bytes, b: bytes, c: bytes, d: bytes, e: bytes)
    ensures s + a + b + c + d + e == s + (a + b + c + (d + e))
  {
  }

  lemma StyledObject(s: Style, v: Value, depth: nat, indented: bool)
    requires v.Object? && v.members != []
    ensures Styled(s, v, depth, indented) == IndentUnless(s, depth, indented) + [LBRACE] +
              StyledMembers(s, v.members, depth + 1) + (NewLine(s, depth) + [RBRACE])
  {
    hide StyledMembers, NewLine;
  }

  lemma OneLineEnd(s: Style)
    ensures OneLine(s, []) == [] && OneLineMore(s, []) == []
  {
  }

  lemma OneLineTurn(s: Style, texts: seq<bytes>, index: nat, done: bytes)
    requires index < |texts|
    ensures done + (if index == 0 then OneLine(s, texts) else OneLineMore(s, texts[index..]))
         == (done + if index > 0 then [COMMA] + Pad(s) else []) + texts[index] + OneLineMore(s, texts[index + 1..])
  {
    assert texts[index..][1..] == texts[index + 1..];
    assert texts[0..] == texts;
  }

  lemma ElementsTurn(s: Style, items: seq<Value>, index: nat, depth: nat, done: bytes)
    requires index < |items|
    ensures done + StyledElements(s, items[index..], depth)
         == done + NewLine(s, depth) + Styled(s, items[index], depth, true) +
            if index + 1 == |items| then [] else [COMMA] + StyledElements(s, items[index + 1..], depth)
  {
    hide Styled, NewLine;
    assert items[index..][1..] == items[index + 1..];
  }

  lemma MembersTurn(s: Style, members: seq<Member>, index: nat, depth: nat, done: bytes)
    requires index < |members|
    ensures done + StyledMembers(s, members[index..], depth)
         == done + StyledMember(s, members[index], depth) +
            if index + 1 == |members| then [] else [COMMA] + StyledMembers(s, members[index + 1..], depth)
  {
    hide StyledMember;
    assert members[index..][1..] == members[index + 1..];
  }
}
