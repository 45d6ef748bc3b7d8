/**
 The two writers.  `FastWriter` prints without white space; the styled writer
 breaks lines, indents, and puts short flat arrays on one line.  Both classes are
 proved against functions that give the text of a value.
 */
module JsonWriter {
  import opened Bytes
  import opened JsonText
  import opened JsonNumber
  import opened JsonValue
  import opened JsonLayout

  const MAX_UINT32: int := 0xFFFF_FFFF

  function BoolText(b: bool): bytes {
    if b then TRUE_TEXT else FALSE_TEXT
  }

  // ---------------------------------------------------------------- FastWriter

  datatype FastOptions = FastOptions(yamlCompatibility: bool, dropNullPlaceholders: bool,
                                     omitEndingLineFeed: bool, showDouble: Double -> bytes)

  function FastText(o: FastOptions, v: Value): bytes {
    match v
    case Null => if o.dropNullPlaceholders then [] else NULL_TEXT
    case Int(i) => IntText(i)
    case UInt(u) => Digits(u)
    case Real(d) => o.showDouble(d)
    case Str(s) => Quoted(s)
    case Bool(b) => BoolText(b)
    case Array(items) => [LBRACKET] + FastItems(o, items) + [RBRACKET]
    case Object(members) => [LBRACE] + FastMembers(o, members) + [RBRACE]
  }

  function FastItems(o: FastOptions, items: seq<Value>): bytes {
    if items == [] then []
    else FastText(o, items[0]) + FastMore(o, items[1..])
  }

  /** The elements from the second on, each behind its comma. */
  function FastMore(o: FastOptions, items: seq<Value>): bytes {
    if items == [] then [] else [COMMA] + FastText(o, items[0]) + FastMore(o, items[1..])
  }

  function FastColon(o: FastOptions): bytes {
    if o.yamlCompatibility then [COLON, SPACE] else [COLON]
  }

  function FastMember(o: FastOptions, m: Member): bytes {
    Quoted(m.name) + FastColon(o) + FastText(o, m.value)
  }

  function FastMembers(o: FastOptions, members: seq<Member>): bytes {
    if members == [] then []
    else FastMember(o, members[0]) + FastMoreMembers(o, members[1..])
  }

  function FastMoreMembers(o: FastOptions, members: seq<Member>): bytes {
    if members == [] then [] else [COMMA] + FastMember(o, members[0]) + FastMoreMembers(o, members[1..])
  }

  /** The widths of the fields of a value: 64-bit numbers, 32-bit array sizes. */
  predicate InRange(v: Value) {
    match v
    case Int(i) => MIN_INT64 <= i <= MAX_INT64
    case UInt(u) => u <= MAX_UINT64
    case Array(items) => |items| <= MAX_UINT32 && forall k :: 0 <= k < |items| ==> InRange(items[k])
    case Object(members) => forall k :: 0 <= k < |members| ==> InRange(members[k].value)
    case _ => true
  }

  class FastWriter {
    const options: FastOptions
    var document: bytes

    constructor (options: FastOptions)
      ensures this.options == options
    {
      this.options := options;
      document := [];
    }

    method Write(root: Value) returns (text: bytes)
      requires InRange(root)
      modifies this
      ensures text == document == FastText(options, root) + if options.omitEndingLineFeed then [] else [LF]
    {
      document := [];
      WriteValue(root);
      assert [] + FastText(options, root) == FastText(options, root);
      if !options.omitEndingLineFeed {
        document := document + [LF];
      }
      text := document;
    }

    method WriteValue(value: Value)
      requires InRange(value)
      modifies this
      ensures document == old(document) + FastText(options, value)
      decreases value, 1
    {
      match value {
        case Null =>
          if !options.dropNullPlaceholders {
            document := document + NULL_TEXT;
          }
        case Int(i) =>
          var text := IntToString(i);
          document := document + text;
        case UInt(u) =>
          var text := UIntToString(u);
          document := document + text;
        case Real(d) => document := document + options.showDouble(d);
        case Str(s) =>
          var text := ValueToQuotedString(s);
          document := document + text;
        case Bool(b) => document := document + BoolText(b);
        case Array(items) =>
          document := document + [LBRACKET];
          WriteElements(items);
          document := document + [RBRACKET];
        case Object(members) =>
          document := document + [LBRACE];
          WriteMembers(members);
          document := document + [RBRACE];
      }
    }

    method WriteElements(items: seq<Value>)
      requires forall k :: 0 <= k < |items| ==> InRange(items[k])
      modifies this
      ensures document == old(document) + FastItems(options, items)
      decreases items, 0
    {
      hide FastText;
      for index := 0 to |items|
        invariant old(document) + FastItems(options, items) == document +
                  if index == 0 then FastItems(options, items) else FastMore(options, items[index..])
      {
        FastTurn(options, items, index, document);
        if index > 0 {
          document := document + [COMMA];
        }
        WriteValue(items[index]);
      }
    }

    method WriteMembers(members: seq<Member>)
      requires forall k :: 0 <= k < |members| ==> InRange(members[k].value)
      modifies this
      ensures document == old(document) + FastMembers(options, members)
      decreases members, 0
    {
      hide FastText, FastMember;
      for index := 0 to |members|
        invariant old(document) + FastMembers(options, members) == document +
                  if index == 0 then FastMembers(options, members) else FastMoreMembers(options, members[index..])
      {
        FastMemberTurn(options, members, index, document);
        if index > 0 {
          document := document + [COMMA];
        }
        WriteMember(members[index]);
      }
    }

    method WriteMember(m: Member)
      requires InRange(m.value)
      modifies this
      ensures document == old(document) + FastMember(options, m)
      decreases m
    {
      var name := ValueToQuotedString(m.name);
      document := document + name;
      document := document + FastColon(options);
      WriteValue(m.value);
    }
  }

  lemma FastTurn(o: FastOptions, items: seq<Value>, index: nat, done: bytes)
    requires index < |items|
    ensures done + (if index == 0 then FastItems(o, items) else FastMore(o, items[index..]))
         == (done + if index > 0 then [COMMA] else []) + FastText(o, items[index]) + FastMore(o, items[index + 1..])
  {
    hide FastText;
    assert items[index..][1..] == items[index + 1..];
    assert items[0..] == items;
  }

  lemma FastMemberTurn(o: FastOptions, members: seq<Member>, index: nat, done: bytes)
    requires index < |members|
    ensures done + (if index == 0 then FastMembers(o, members) else FastMoreMembers(o, members[index..]))
         == (done + if index > 0 then [COMMA] else []) + FastMember(o, members[index]) +
            FastMoreMembers(o, members[index + 1..])
  {
    hide FastMember;
    assert members[index..][1..] == members[index + 1..];
    assert members[0..] == members;
  }
}
