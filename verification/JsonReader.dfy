/**
 `OurReader`: a cursor over the document, a stack of the nodes being filled in,
 and the list of errors.  Every method is proved against the grammar of
 JsonGrammar.dfy.  The stack holds node values: where the source writes through
 a pointer into the parent, `PopInto...` writes the finished child back.
 */
module JsonReader {
  import opened Optional
  import opened Bytes
  import opened JsonText
  import opened JsonNumber
  import opened JsonValue
  import G = JsonGrammar

  type Token = G.Token
  type Node = G.Node

  /** How a reading method returns: normally, with its verdict, or by an exception. */
  datatype Status = Returned(ok: bool) | Threw

  /** How one turn of the member loop ends. */
  datatype Step = Leave(status: Status) | Continue(key: bytes)

  /** What is still to be normalised from `k` on. */
  function EolFrom(t: bytes, k: nat): bytes
    requires k <= |t|
  {
    G.NormalizeEol(t[k..])
  }

  lemma EolEnds(t: bytes, done: bytes)
    ensures EolFrom(t, 0) == G.NormalizeEol(t) && [] + EolFrom(t, 0) == EolFrom(t, 0)
    ensures done + EolFrom(t, |t|) == done
  {
    assert t[0..] == t && t[|t|..] == [];
  }

  /** One turn of the loop over line breaks. */
  lemma EolStep(t: bytes, k: nat, done: bytes)
    requires k < |t|
    ensures var c, next := t[k], if t[k] == CR && k + 1 < |t| && t[k + 1] == LF then k + 2 else k + 1;
            done + EolFrom(t, k) == (done + [if c == CR then LF else c]) + EolFrom(t, next)
  {
    var next := if t[k] == CR && k + 1 < |t| && t[k + 1] == LF then k + 2 else k + 1;
    assert t[k..][next - k..] == t[next..];
    var head := [if t[k] == CR then LF else t[k]];
    assert EolFrom(t, k) == head + EolFrom(t, next);
    assert done + (head + EolFrom(t, next)) == (done + head) + EolFrom(t, next);
  }

  class OurReader {
    const input: G.Input
    var current: nat
    var nodes: seq<Node>
    var errors: seq<G.ReadError>
    var lastValueEnd: Option<nat>
    var commentsBefore: bytes

    constructor (input: G.Input)
      ensures this.input == input && current == 0 && nodes == [] && errors == [] && Noted() == G.NO_NOTES
    {
      this.input := input;
      current, nodes, errors, lastValueEnd, commentsBefore := 0, [], [], None, [];
    }

    /** What was noted while comments are collected. */
    function Noted(): G.Notes
      reads this
    {
      G.Notes(lastValueEnd, commentsBefore)
    }

    predicate InBounds()
      reads this
    {
      current <= |input.doc|
    }

    // -------------------------------------------------------------- characters and tokens

    method GetNextChar() returns (c: byte)
      requires InBounds()
      modifies this`current
      ensures InBounds()
      ensures current == if old(current) < |input.doc| then old(current) + 1 else old(current)
      ensures c == if old(current) < |input.doc| then input.doc[old(current)] else 0
    {
      if current == |input.doc| {
        return 0;
      }
      c := input.doc[current];
      current := current + 1;
    }

    method SkipSpaces()
      requires InBounds()
      modifies this`current
      ensures current == G.SkipSpaces(input.doc, old(current))
    {
      while current != |input.doc|
        invariant InBounds() && G.SkipSpaces(input.doc, current) == G.SkipSpaces(input.doc, old(current))
        decreases |input.doc| - current
      {
        if IsSpace(input.doc[current]) {
          current := current + 1;
        } else {
          break;
        }
      }
    }

    method Match(pattern: bytes) returns (ok: bool)
      requires InBounds()
      modifies this`current
      ensures G.Scan(ok, current) == G.MatchText(input.doc, old(current), pattern)
    {
      if |input.doc| - current < |pattern| {
        return false;
      }
      var index := |pattern|;
      while index > 0
        invariant 0 <= index <= |pattern|
        invariant forall k :: index <= k < |pattern| ==> input.doc[current + k] == pattern[k]
      {
        index := index - 1;
        if input.doc[current + index] != pattern[index] {
          assert input.doc[current..current + |pattern|][index] != pattern[index];
          return false;
        }
      }
      assert input.doc[current..current + |pattern|] == pattern;
      current := current + |pattern|;
      ok := true;
    }

    method ReadCStyleComment() returns (ok: bool)
      requires InBounds()
      modifies this`current
      ensures G.Scan(ok, current) == G.CStyleEnd(input.doc, old(current))
    {
      while current + 1 < |input.doc|
        invariant InBounds() && G.CStyleEnd(input.doc, current) == G.CStyleEnd(input.doc, old(current))
        decreases |input.doc| - current
      {
        var c := GetNextChar();
        if c == STAR && input.doc[current] == SLASH {
          break;
        }
      }
      var last := GetNextChar();
      ok := last == SLASH;
    }

    method ReadCppStyleComment()
      requires InBounds()
      modifies this`current
      ensures current == G.CppStyleEnd(input.doc, old(current))
    {
      while current != |input.doc|
        invariant InBounds() && G.CppStyleEnd(input.doc, current) == G.CppStyleEnd(input.doc, old(current))
        decreases |input.doc| - current
      {
        var c := GetNextChar();
        if c == LF {
          break;
        }
        if c == CR {
          if current != |input.doc| && input.doc[current] == LF {
            var _ := GetNextChar();
          }
          break;
        }
      }
    }

    method ContainsNewLine(begin: nat, end: nat) returns (found: bool)
      requires end <= |input.doc|
      ensures found == G.HasNewLine(input.doc, begin, end)
    {
      var k := begin;
      while k < end
        invariant begin <= k && forall i :: begin <= i < k && i < end ==> input.doc[i] != LF && input.doc[i] != CR
      {
        if input.doc[k] == LF || input.doc[k] == CR {
          return true;
        }
        k := k + 1;
      }
      found := false;
    }

    method NormalizeEOL(begin: nat, end: nat) returns (normalized: bytes)
      requires begin <= end <= |input.doc|
      ensures normalized == G.NormalizeEol(input.doc[begin..end])
    {
      hide G.NormalizeEol, EolFrom;
      normalized := [];
      ghost var t := input.doc[begin..end];
      EolEnds(t, []);
      var k := begin;
      while k != end
        invariant begin <= k <= end
        invariant normalized + EolFrom(t, k - begin) == G.NormalizeEol(t)
        decreases end - k
      {
        EolStep(t, k - begin, normalized);
        var c := input.doc[k];
        k := k + 1;
        if c == CR {
          if k != end && input.doc[k] == LF {
            k := k + 1;
          }
          normalized := normalized + [LF];
        } else {
          normalized := normalized + [c];
        }
      }
      EolEnds(t, normalized);
    }

    /** `setComment`: whether its assertions fail. */
    method SetComment(comment: bytes) returns (threw: bool)
      ensures threw == G.Rejected(comment)
    {
      var c := comment;
      if |c| > 0 && c[|c| - 1] == LF {
        c := c[..|c| - 1];
      }
      threw := |c| == 0 || (c[0] != 0 && c[0] != SLASH);
    }

    /** The comment from `begin` to the cursor goes to the value before it or is kept for
        the next one. */
    method AddComment(begin: nat, sameLine: bool) returns (threw: bool)
      requires begin <= current <= |input.doc|
      modifies this`commentsBefore
      ensures var comment := G.NormalizeEol(input.doc[begin..current]);
              if sameLine then threw == G.Rejected(comment) && commentsBefore == old(commentsBefore)
              else !threw && commentsBefore == old(commentsBefore) + comment
    {
      var normalized := NormalizeEOL(begin, current);
      if sameLine {
        threw := SetComment(normalized);
      } else {
        commentsBefore := commentsBefore + normalized;
        threw := false;
      }
    }

    /** Whether the notes come to `n`, or the reader threw. */
    predicate NotesAre(n: Option<G.Notes>, threw: bool)
      reads this
    {
      n == if threw then None else Some(Noted())
    }

    method ReadComment() returns (ok: bool, threw: bool)
      requires 0 < current <= |input.doc|
      modifies this`current, this`commentsBefore
      ensures G.Scan(ok, current) == G.ScanComment(input.doc, old(current))
      ensures if ok then NotesAre(G.Noted(input, G.Token(G.Comment, old(current) - 1, current), old(Noted())), threw)
              else !threw && Noted() == old(Noted())
    {
      hide G.NormalizeEol, G.Rejected, G.HasNewLine, G.CStyleEnd, G.CppStyleEnd;
      var commentBegin := current - 1;
      threw := false;
      var c := GetNextChar();
      if c == STAR {
        ok := ReadCStyleComment();
      } else if c == SLASH {
        ReadCppStyleComment();
        ok := true;
      } else {
        ok := false;
      }
      if !ok {
        return;
      }
      if G.Collects(input.features) {
        var sameLine := false;
        if lastValueEnd.Some? {
          var broken := ContainsNewLine(lastValueEnd.value, commentBegin);
          if !broken {
            var inside := ContainsNewLine(commentBegin, current);
            sameLine := c != STAR || !inside;
          }
        }
        threw := AddComment(commentBegin, sameLine);
      }
    }

    /** `readString` for a double, `readStringSingleQuote` for a single quote. */
    method ReadString(quote: byte) returns (ok: bool)
      requires InBounds() && quote != 0 && quote != BACKSLASH
      modifies this`current
      ensures G.Scan(ok, current) == G.ScanString(input.doc, old(current), quote)
    {
      var c: byte := 0;
      while current != |input.doc|
        invariant InBounds() && c != quote
        invariant G.ScanString(input.doc, current, quote) == G.ScanString(input.doc, old(current), quote)
        decreases |input.doc| - current
      {
        c := GetNextChar();
        if c == BACKSLASH {
          var _ := GetNextChar();
        } else if c == quote {
          break;
        }
      }
      ok := c == quote;
    }

    /** The number loops hold the character at the cursor in `c` and look past it with `p`. */
    predicate Looking(c: byte, p: nat)
      reads this
    {
      InBounds() &&
      if current < |input.doc| then c == input.doc[current] && p == current + 1 else c == 0 && p == |input.doc|
    }

    method Take(p: nat) returns (c: byte, next: nat)
      requires p <= |input.doc|
      modifies this`current
      ensures current == p && Looking(c, next)
    {
      current := p;
      if p < |input.doc| {
        c, next := input.doc[p], p + 1;
      } else {
        c, next := 0, p;
      }
    }

    method TakeDigits(c0: byte, p0: nat) returns (c: byte, p: nat)
      requires p0 <= |input.doc| && (IsDigit(c0) || Looking(c0, p0))
      modifies this`current
      ensures Looking(c, p)
      ensures current == if IsDigit(c0) then G.DigitsEnd(input.doc, p0) else old(current)
      ensures old(Looking(c0, p0)) ==> current == G.DigitsEnd(input.doc, old(current))
    {
      c, p := c0, p0;
      while IsDigit(c)
        invariant p <= |input.doc|
        invariant IsDigit(c) ==> IsDigit(c0) && G.DigitsEnd(input.doc, p) == G.DigitsEnd(input.doc, p0)
        invariant !IsDigit(c) ==> Looking(c, p)
        invariant !IsDigit(c) ==> current == if IsDigit(c0) then G.DigitsEnd(input.doc, p0) else old(current)
        decreases |input.doc| - p, IsDigit(c)
      {
        c, p := Take(p);
      }
    }

    method ReadNumber(checkInf: bool) returns (ok: bool)
      requires InBounds()
      modifies this`current
      ensures ok <==> !(checkInf && G.IsByteAt(input.doc, old(current), 73))
      ensures current == if ok then G.NumberEnd(input.doc, old(current)) else old(current) + 1
    {
      hide G.DigitsEnd;
      var p := current;
      if checkInf && p != |input.doc| && input.doc[p] == 73 {
        current := p + 1;
        return false;
      }
      var c: byte := ZERO;
      c, p := TakeDigits(c, p);
      if c == 46 {
        c, p := Take(p);
        c, p := TakeDigits(c, p);
      }
      assert current == G.FractionEnd(input.doc, G.DigitsEnd(input.doc, old(current)));
      if c == 101 || c == 69 {
        c, p := Take(p);
        if c == 43 || c == MINUS {
          c, p := Take(p);
        }
        c, p := TakeDigits(c, p);
      }
      ok := true;
    }

    method ReadToken() returns (token: Token, threw: bool)
      requires InBounds()
      modifies this`current, this`commentsBefore
      ensures token == G.Lex(input.doc, input.features, old(current)) && current == token.end
      ensures NotesAre(G.Noted(input, token, old(Noted())), threw)
    {
      hide G.Noted;
      threw := false;
      SkipSpaces();
      var start := current;
      var c := GetNextChar();
      var ok := true;
      var kind := G.ErrorToken;
      if c == LBRACE {
        kind := G.ObjectBegin;
      } else if c == RBRACE {
        kind := G.ObjectEnd;
      } else if c == LBRACKET {
        kind := G.ArrayBegin;
      } else if c == RBRACKET {
        kind := G.ArrayEnd;
      } else if c == QUOTE {
        kind := G.StringToken;
        ok := ReadString(QUOTE);
      } else if c == 39 && input.features.allowSingleQuotes {
        kind := G.StringToken;
        ok := ReadString(39);
      } else if c == 39 || c == SLASH {
        kind := G.Comment;
        ok, threw := ReadComment();
      } else if IsDigit(c) {
        kind := G.NumberToken;
        var _ := ReadNumber(false);
      } else if c == MINUS {
        var isNumber := ReadNumber(true);
        if isNumber {
          kind := G.NumberToken;
        } else {
          kind := G.NegInfToken;
          if input.features.allowSpecialFloats {
            ok := Match(G.NFINITY);
          } else {
            ok := false;
          }
        }
      } else if c == 116 {
        kind := G.TrueToken;
        ok := Match(G.RUE);
      } else if c == 102 {
        kind := G.FalseToken;
        ok := Match(G.ALSE);
      } else if c == 110 {
        kind := G.NullToken;
        ok := Match(G.ULL);
      } else if c == 78 && input.features.allowSpecialFloats {
        kind := G.NaNToken;
        ok := Match(G.AN);
      } else if c == 73 && input.features.allowSpecialFloats {
        kind := G.PosInfToken;
        ok := Match(G.NFINITY);
      } else if c == COMMA {
        kind := G.ArraySeparator;
      } else if c == COLON {
        kind := G.MemberSeparator;
      } else if c == 0 {
        kind := G.EndOfStream;
      } else {
        ok := false;
      }
      token := G.Token(if ok then kind else G.ErrorToken, start, current);
      NothingNoted(token);
    }

    lemma NothingNoted(token: Token)
      ensures !token.kind.Comment? ==> forall notes :: G.Noted(input, token, notes) == Some(notes)
    {
    }

    /** The loop that reads on while the token is a comment. */
    method ReadTokenPastComments() returns (token: Token, threw: bool)
      requires InBounds()
      modifies this`current, this`commentsBefore
      ensures InBounds() && NotesAre(G.NotesPast(input, old(current), old(Noted())), threw)
      ensures !threw ==> token == G.LexPastComments(input.doc, input.features, old(current)) && current == token.end
    {
      hide G.Lex, G.Noted;
      token, threw := ReadToken();
      while token.kind.Comment? && !threw
        invariant InBounds() && current == token.end
        invariant threw
          || G.LexPastComments(input.doc, input.features, old(current))
             == if token.kind.Comment? then G.LexPastComments(input.doc, input.features, current) else token
        invariant G.NotesPast(input, old(current), old(Noted()))
               == if threw then None
                  else if token.kind.Comment? then G.NotesPast(input, current, Noted()) else Some(Noted())
        decreases |input.doc| - current, token.kind.Comment? && !threw
      {
        token, threw := ReadToken();
      }
    }

    method SkipCommentTokens() returns (token: Token, threw: bool)
      requires InBounds()
      modifies this`current, this`commentsBefore
      ensures InBounds() && NotesAre(G.NotesNext(input, old(current), old(Noted())), threw)
      ensures !threw ==> token == G.NextToken(input.doc, input.features, old(current)) && current == token.end
    {
      hide G.Noted, G.NotesPast;
      if input.features.allowComments {
        token, threw := ReadTokenPastComments();
      } else {
        token, threw := ReadToken();
      }
    }

    // -------------------------------------------------------------- errors

    method AddError(kind: ErrorKind, token: Token)
      modifies this`errors
      ensures errors == old(errors) + [G.ErrorAt(kind, token)]
    {
      errors := errors + [G.ReadError(kind, token.start, token.end)];
    }

    /** How skipping to a token ends: with the verdict false, or by an exception. */
    ghost predicate Skips(n: Option<G.Notes>, s: Status, end: nat)
      reads this
    {
      if n.None? then s.Threw? else s == Returned(false) && current == end && InBounds() && Noted() == n.value
    }

    /** Skips to the next such token; errors met on the way are discarded. */
    method RecoverFromError(skipUntilToken: G.Kind) returns (s: Status)
      requires InBounds()
      modifies this`current, this`errors, this`commentsBefore
      ensures Skips(G.NotesRecover(input, old(current), skipUntilToken, old(Noted())), s,
                    G.Recover(input.doc, input.features, old(current), skipUntilToken))
      ensures errors == old(errors)
    {
      hide G.Lex, G.Noted;
      var errorCount := |errors|;
      while true
        invariant InBounds() && errors == old(errors)
        invariant G.Recover(input.doc, input.features, current, skipUntilToken)
               == G.Recover(input.doc, input.features, old(current), skipUntilToken)
        invariant G.NotesRecover(input, current, skipUntilToken, Noted())
               == G.NotesRecover(input, old(current), skipUntilToken, old(Noted()))
        decreases |input.doc| - current
      {
        var skip, threw := ReadToken();
        if threw {
          return Threw;
        }
        if skip.kind == skipUntilToken || skip.kind.EndOfStream? {
          break;
        }
      }
      errors := errors[..errorCount];
      s := Returned(false);
    }

    method AddErrorAndRecover(kind: ErrorKind, token: Token, skipUntilToken: G.Kind) returns (s: Status)
      requires InBounds()
      modifies this`current, this`errors, this`commentsBefore
      ensures Skips(G.NotesRecover(input, old(current), skipUntilToken, old(Noted())), s,
                    G.Recover(input.doc, input.features, old(current), skipUntilToken))
      ensures errors == old(errors) + [G.ErrorAt(kind, token)]
    {
      AddError(kind, token);
      s := RecoverFromError(skipUntilToken);
    }

    // -------------------------------------------------------------- scalars

    /** `decodeNumber(token, decoded)`; `None` after an error was recorded. */
    method DecodeNumber(token: Token) returns (decoded: Option<Value>)
      requires token.start < token.end <= |input.doc|
      modifies this`errors
      ensures decoded == G.NumberValue(input, G.Text(input.doc, token))
      ensures errors == old(errors) + if decoded.None? then [G.ErrorAt(NotANumber, token)] else []
    {
      var numeral := JsonNumber.DecodeNumber(input.doc, token.start, token.end);
      match numeral {
        case Signed(i) => decoded := Some(Int(i));
        case Unsigned(u) => decoded := Some(UInt(u));
        case ByDouble =>
          var d := input.scanDouble(input.doc[token.start..token.end]);
          if d.None? {
            AddError(NotANumber, token);
            decoded := None;
          } else {
            decoded := Some(Real(d.value));
          }
      }
    }

    /** `decodeString(token, decoded)`: `Malformed` after an error was recorded. */
    method DecodeString(token: Token) returns (decoded: Unescaped)
      requires token.start + 2 <= token.end <= |input.doc|
      modifies this`errors
      ensures decoded == G.StringText(input.doc, token)
      ensures errors == old(errors) + if decoded.Malformed? then [G.ErrorAt(decoded.error, token)] else []
    {
      decoded := JsonText.Unescape(input.doc, token.start + 1, token.end - 1);
      if decoded.Malformed? {
        AddError(decoded.error, token);
      }
    }

    // -------------------------------------------------------------- the node stack

    ghost predicate Agrees(r: G.Parsed, s: Status, nodesBefore: seq<Node>, errorsBefore: seq<G.ReadError>)
      reads this
      requires |nodesBefore| > 0
    {
      match r
      case Thrown => s.Threw?
      case Parsed(ok, node, pos, errs, notes) =>
        && s == Returned(ok) && current == pos && InBounds() && Noted() == notes
        && nodes == nodesBefore[..|nodesBefore| - 1] + [node]
        && errors == errorsBefore + errs
    }

    function CurrentValue(): Node
      requires |nodes| > 0
      reads this
    {
      nodes[|nodes| - 1]
    }

    method SetCurrent(node: Node)
      requires |nodes| > 0
      modifies this`nodes
      ensures nodes == old(nodes)[..|old(nodes)| - 1] + [node]
    {
      nodes := nodes[|nodes| - 1 := node];
    }

    method Push(node: Node)
      modifies this`nodes
      ensures nodes == old(nodes) + [node]
    {
      nodes := nodes + [node];
    }

    /** Pops the finished child and writes it under `name` into its parent. */
    method PopIntoField(name: bytes)
      requires |nodes| >= 2 && nodes[|nodes| - 2].body.Fields?
      modifies this`nodes
      ensures var n := |old(nodes)|;
              var parent, child := old(nodes)[n - 2], old(nodes)[n - 1];
              nodes == old(nodes)[..n - 2] + [parent.(body := G.Fields(G.Put(parent.body.fields, name, child)))]
    {
      var child := CurrentValue();
      nodes := nodes[..|nodes| - 1];
      var parent := CurrentValue();
      SetCurrent(parent.(body := G.Fields(G.Put(parent.body.fields, name, child))));
    }

    /** Pops the finished child and appends it to its parent. */
    method PopIntoItem()
      requires |nodes| >= 2 && nodes[|nodes| - 2].body.Items?
      modifies this`nodes
      ensures var n := |old(nodes)|;
              var parent, child := old(nodes)[n - 2], old(nodes)[n - 1];
              nodes == old(nodes)[..n - 2] + [parent.(body := G.Items(parent.body.items + [child]))]
    {
      var child := CurrentValue();
      nodes := nodes[..|nodes| - 1];
      var parent := CurrentValue();
      SetCurrent(parent.(body := G.Items(parent.body.items + [child])));
    }

    // -------------------------------------------------------------- values

    /** The member name of a token; `BadName` after an error was recorded. */
    method ReadName(token: Token) returns (name: G.KeyName)
      requires token.start <= token.end <= |input.doc|
      requires token.kind.StringToken? ==> token.end >= token.start + 2
      requires token.kind.NumberToken? ==> token.end > token.start
      modifies this`errors
      ensures name == G.NameOf(input, token)
      ensures errors == old(errors) + if name.BadName? then [G.ErrorAt(name.error, token)] else []
    {
      if token.kind.StringToken? {
        var decoded := DecodeString(token);
        name := if decoded.Unescaped? then G.Named(decoded.text) else G.BadName(decoded.error);
      } else if token.kind.NumberToken? && input.features.allowNumericKeys {
        var decoded := DecodeNumber(token);
        name := if decoded.None? then G.BadName(NotANumber) else G.Named(G.KeyText(input, decoded.value));
      } else {
        name := G.NoName;
      }
    }

    /** The end of a value is noted. */
    method EndValue()
      modifies this`lastValueEnd
      ensures lastValueEnd == if G.Collects(input.features) then Some(current) else old(lastValueEnd)
    {
      if G.Collects(input.features) {
        lastValueEnd := Some(current);
      }
    }

    /** A number or a string; an error leaves the value as it was. */
    method ReadText(token: Token) returns (s: Status)
      requires InBounds() && |nodes| > 0 && token.start < token.end == current
      requires (token.kind.StringToken? && token.end >= token.start + 2) || token.kind.NumberToken?
      modifies this`nodes, this`errors
      ensures match G.ParseScalar(input, token, old(Noted()), old(CurrentValue()))
              case Thrown => s.Threw?
              case Parsed(ok, node, pos, errs, _) =>
                && s == Returned(ok) && pos == current && errors == old(errors) + errs
                && nodes == old(nodes)[..|old(nodes)| - 1] + [node]
    {
      hide G.NumberValue, G.StringText;
      assert nodes == nodes[..|nodes| - 1] + [CurrentValue()];
      if token.kind.NumberToken? {
        var decoded := DecodeNumber(token);
        if decoded.None? {
          return Returned(false);
        }
        SetCurrent(G.LeafAt(token, decoded.value));
      } else {
        var decoded := DecodeString(token);
        if decoded.Malformed? {
          return Returned(false);
        }
        if |decoded.text| > G.MAX_STRING {
          return Threw;
        }
        SetCurrent(G.LeafAt(token, Str(decoded.text)));
      }
      s := Returned(true);
    }

    /** The cases of `readValue` that need no recursion. */
    method ReadScalar(token: Token) returns (s: Status)
      requires InBounds() && |nodes| > 0 && token.start <= token.end == current
      requires token.kind.StringToken? ==> token.end >= token.start + 2
      requires token.kind.NumberToken? || token.kind.IsDelimiter() ==> token.end > token.start
      requires token.kind.IsDelimiter() ==> token.end == token.start + 1
      modifies this
      ensures Agrees(G.ParseScalar(input, token, old(Noted()), old(CurrentValue())), s, old(nodes), old(errors))
    {
      hide G.NumberValue, G.StringText;
      var slot := CurrentValue();
      s := Returned(true);
      match token.kind {
        case NumberToken | StringToken =>
          s := ReadText(token);
          if s.Threw? {
            return;
          }
        case TrueToken => SetCurrent(G.LeafAt(token, Bool(true)));
        case FalseToken => SetCurrent(G.LeafAt(token, Bool(false)));
        case NullToken => SetCurrent(G.LeafAt(token, Null));
        case NaNToken => SetCurrent(G.LeafAt(token, Real(NaN)));
        case PosInfToken => SetCurrent(G.LeafAt(token, Real(PosInf)));
        case NegInfToken => SetCurrent(G.LeafAt(token, Real(NegInf)));
        case ArraySeparator | ObjectEnd | ArrayEnd =>
          if !input.features.allowDroppedNullPlaceholders {
            SetCurrent(slot.(start := token.start, limit := token.end));
            AddError(ValueExpected, token);
            return Returned(false);
          }
          current := current - 1;
          SetCurrent(G.Node(current - 1, current, G.Leaf(Null)));
        case _ =>
          SetCurrent(slot.(start := token.start, limit := token.end));
          AddError(ValueExpected, token);
          return Returned(false);
      }
      EndValue();
    }

    /** The comments collected so far go to the value that begins. */
    method SetCommentsBefore() returns (threw: bool)
      modifies this`commentsBefore
      ensures threw == !G.Accepted(input.features, old(Noted()))
      ensures !threw ==> Noted() == G.Cleared(input.features, old(Noted()))
    {
      hide G.Rejected;
      threw := false;
      if G.Collects(input.features) && commentsBefore != [] {
        threw := SetComment(commentsBefore);
        if !threw {
          commentsBefore := [];
        }
      }
    }

    /** The offset limit and the end of an array or an object. */
    method CloseValue()
      requires InBounds() && |nodes| > 0
      modifies this`nodes, this`lastValueEnd
      ensures nodes == old(nodes)[..|old(nodes)| - 1] + [old(CurrentValue()).(limit := current)]
      ensures lastValueEnd == if G.Collects(input.features) then Some(current) else old(lastValueEnd)
    {
      SetCurrent(CurrentValue().(limit := current));
      EndValue();
    }

    method ReadValue() returns (s: Status)
      requires InBounds() && |nodes| > 0
      modifies this
      ensures Agrees(G.ParseValue(input, old(current), old(Noted()), |old(nodes)|, old(CurrentValue())),
                     s, old(nodes), old(errors))
      decreases |input.doc| - current, 0
    {
      hide G.NextToken, G.NotesNext, G.ParseMembers, G.ParseItems, G.ParseScalar, G.Accepted, G.Cleared;
      if |nodes| > input.features.stackLimit {
        return Threw;
      }
      var token, threw := SkipCommentTokens();
      if threw {
        return Threw;
      }
      threw := SetCommentsBefore();
      if threw {
        return Threw;
      }
      if token.kind.ObjectBegin? {
        s := ReadObject(token);
        if s.Returned? {
          CloseValue();
        }
      } else if token.kind.ArrayBegin? {
        s := ReadArray(token);
        if s.Returned? {
          CloseValue();
        }
      } else {
        s := ReadScalar(token);
      }
    }

    /** What follows a member. */
    method ReadAfterMember(key: bytes) returns (step: Step)
      requires InBounds() && |nodes| > 0 && CurrentValue().body.Fields?
      modifies this
      ensures var before := G.ParseAfterMember(input, old(current), old(Noted()), |old(nodes)|, old(CurrentValue()),
          key);
              match step
              case Leave(s) => Agrees(before, s, old(nodes), old(errors))
              case Continue(next) =>
                && InBounds() && old(current) < current && errors == old(errors) && nodes == old(nodes)
                && next == key
                && before == G.ParseMembers(input, current, Noted(), |nodes|, CurrentValue(), key)
    {
      hide G.Lex, G.LexPastComments, G.Recover, G.ParseMembers;
      assert nodes == nodes[..|nodes| - 1] + [CurrentValue()];
      var comma, threw := ReadToken();
      if threw {
        return Leave(Threw);
      }
      if !comma.kind.ObjectEnd? && !comma.kind.ArraySeparator? && !comma.kind.Comment? {
        var recovered := AddErrorAndRecover(MissingCommaOrBrace, comma, G.ObjectEnd);
        return Leave(recovered);
      }
      if comma.kind.Comment? {
        comma, threw := ReadTokenPastComments();
        if threw {
          return Leave(Threw);
        }
      }
      if comma.kind.ObjectEnd? {
        return Leave(Returned(true));
      }
      step := Continue(key);
    }

    /** The value of a member, bound to its name. */
    method ReadFieldValue(key: bytes) returns (s: Status)
      requires InBounds() && |nodes| > 0 && CurrentValue().body.Fields?
      modifies this
      ensures var node := old(CurrentValue());
              var known := G.Lookup(node.body.fields, key);
              var r := G.ParseValue(input, old(current), old(Noted()), |old(nodes)| + 1,
                                    if known.Some? then known.value else G.NULL_NODE);
              match r
              case Thrown => s.Threw?
              case Parsed(ok, child, pos, errs, notes) =>
                && s == Returned(ok) && current == pos && InBounds() && Noted() == notes
                && errors == old(errors) + errs
                && nodes == old(nodes)[..|old(nodes)| - 1]
                          + [node.(body := G.Fields(G.Put(node.body.fields, key, child)))]
      decreases |input.doc| - current, 1
    {
      hide G.Lookup, G.Put, G.ParseValue;
      ghost var below, node := nodes[..|nodes| - 1], CurrentValue();
      var member := G.Lookup(CurrentValue().body.fields, key);
      Push(if member.Some? then member.value else G.NULL_NODE);
      ghost var r := G.ParseValue(input, current, Noted(), |nodes|, CurrentValue());
      s := ReadValue();
      if s.Threw? {
        return;
      }
      assert nodes == below + [node, r.node];
      PopIntoField(key);
    }

    /** A member from its colon on. */
    method ReadMemberValue(key: bytes) returns (step: Step)
      requires InBounds() && |nodes| > 0 && CurrentValue().body.Fields?
      modifies this
      ensures var before := G.ParseMember(input, old(current), old(Noted()), |old(nodes)|, old(CurrentValue()), key);
              match step
              case Leave(s) => Agrees(before, s, old(nodes), old(errors))
              case Continue(next) =>
                && InBounds() && old(current) < current && errors == old(errors) && next == key
                && |nodes| == |old(nodes)| && nodes[..|nodes| - 1] == old(nodes)[..|old(nodes)| - 1]
                && CurrentValue().body.Fields?
                && before == G.ParseMembers(input, current, Noted(), |nodes|, CurrentValue(), key)
      decreases |input.doc| - current, 0
    {
      hide G.Lex, G.Recover, G.NotesRecover, G.Lookup, G.Put, G.ParseValue, G.ParseAfterMember, G.ParseMembers;
      var colon, threw := ReadToken();
      if threw {
        return Leave(Threw);
      }
      if !colon.kind.MemberSeparator? {
        var recovered := AddErrorAndRecover(MissingColon, colon, G.ObjectEnd);
        return Leave(recovered);
      }
      var s := ReadFieldValue(key);
      if s.Threw? {
        return Leave(Threw);
      }
      if !s.ok {
        var recovered := RecoverFromError(G.ObjectEnd);
        return Leave(recovered);
      }
      step := ReadAfterMember(key);
    }

    /** One turn of the member loop; `name` is the previous member's name. */
    method ReadMember(name: bytes) returns (step: Step)
      requires InBounds() && |nodes| > 0 && CurrentValue().body.Fields?
      modifies this
      ensures var before := G.ParseMembers(input, old(current), old(Noted()), |old(nodes)|, old(CurrentValue()), name);
              match step
              case Leave(s) => Agrees(before, s, old(nodes), old(errors))
              case Continue(key) =>
                && InBounds() && old(current) < current && errors == old(errors)
                && |nodes| == |old(nodes)| && nodes[..|nodes| - 1] == old(nodes)[..|old(nodes)| - 1]
                && CurrentValue().body.Fields?
                && before == G.ParseMembers(input, current, Noted(), |nodes|, CurrentValue(), key)
      decreases |input.doc| - current, 1
    {
      hide G.Lex, G.LexPastComments, G.NextToken, G.Recover, G.Lookup, G.Put, G.NameOf, G.NumberValue, G.StringText,
        G.SkipSpaces, G.ParseMember;
      assert nodes == nodes[..|nodes| - 1] + [CurrentValue()];
      var tokenName, threw := ReadTokenPastComments();
      if threw {
        return Leave(Threw);
      }
      if tokenName.kind.ObjectEnd? && name == [] {
        return Leave(Returned(true));
      }
      var key := ReadName(tokenName);
      match key {
        case NoName =>
          var recovered := AddErrorAndRecover(MissingBraceOrName, tokenName, G.ObjectEnd);
          return Leave(recovered);
        case BadName(_) =>
          var recovered := RecoverFromError(G.ObjectEnd);
          return Leave(recovered);
        case Named(_) =>
      }
      if |key.text| >= G.MAX_KEY {
        return Leave(Threw);
      }
      if input.features.rejectDupKeys && G.Lookup(CurrentValue().body.fields, key.text).Some? {
        var recovered := AddErrorAndRecover(DuplicateKey(key.text), tokenName, G.ObjectEnd);
        return Leave(recovered);
      }
      step := ReadMemberValue(key.text);
    }

    method ReadObject(token: Token) returns (s: Status)
      requires InBounds() && |nodes| > 0
      modifies this
      ensures Agrees(G.ParseMembers(input, old(current), old(Noted()), |old(nodes)|,
                                    G.Node(token.start, old(CurrentValue()).limit, G.Fields([])), []),
                     s, old(nodes), old(errors))
      decreases |input.doc| - current, 2
    {
      ghost var below := nodes[..|nodes| - 1];
      ghost var first := G.Node(token.start, CurrentValue().limit, G.Fields([]));
      SetCurrent(G.Node(token.start, CurrentValue().limit, G.Fields([])));
      var name: bytes := [];
      while true
        invariant InBounds() && old(current) <= current && |nodes| == |old(nodes)| && nodes[..|nodes| - 1] == below
        invariant CurrentValue().body.Fields? && errors == old(errors)
        invariant G.ParseMembers(input, current, Noted(), |nodes|, CurrentValue(), name)
               == G.ParseMembers(input, old(current), old(Noted()), |old(nodes)|, first, [])
        decreases |input.doc| - current
      {
        var step := ReadMember(name);
        match step {
          case Leave(status) => return status;
          case Continue(key) => name := key;
        }
      }
    }

    method ReadArray(token: Token) returns (s: Status)
      requires InBounds() && |nodes| > 0
      modifies this
      ensures Agrees(G.ParseItems(input, old(current), old(Noted()), |old(nodes)|,
                                  G.Node(token.start, old(CurrentValue()).limit, G.Items([]))),
                     s, old(nodes), old(errors))
      decreases |input.doc| - current, 2
    {
      hide G.Lex, G.SkipSpaces, G.ParseElements;
      ghost var first := G.Node(token.start, CurrentValue().limit, G.Items([]));
      SetCurrent(G.Node(token.start, CurrentValue().limit, G.Items([])));
      SkipSpaces();
      if current != |input.doc| && input.doc[current] == RBRACKET {
        G.LexClosingBracket(input.doc, input.features, current);
        var _, _ := ReadToken();
        return Returned(true);
      }
      ghost var below, from, noted := nodes[..|nodes| - 1], current, Noted();
      while true
        invariant InBounds() && from <= current && |nodes| == |old(nodes)| && nodes[..|nodes| - 1] == below
        invariant CurrentValue().body.Items? && errors == old(errors)
        invariant G.ParseElements(input, current, Noted(), |nodes|, CurrentValue())
               == G.ParseElements(input, from, noted, |old(nodes)|, first)
        decreases |input.doc| - current
      {
        var step := ReadElement();
        match step {
          case Leave(status) => return status;
          case Continue(_) =>
        }
      }
    }

    /** One turn of the element loop. */
    method ReadElement() returns (step: Step)
      requires InBounds() && |nodes| > 0 && CurrentValue().body.Items?
      modifies this
      ensures var before := G.ParseElements(input, old(current), old(Noted()), |old(nodes)|, old(CurrentValue()));
              match step
              case Leave(s) => Agrees(before, s, old(nodes), old(errors))
              case Continue(_) =>
                && InBounds() && old(current) < current && errors == old(errors)
                && |nodes| == |old(nodes)| && nodes[..|nodes| - 1] == old(nodes)[..|old(nodes)| - 1]
                && CurrentValue().body.Items?
                && before == G.ParseElements(input, current, Noted(), |nodes|, CurrentValue())
      decreases |input.doc| - current, 1
    {
      hide G.Recover, G.ParseValue, G.ParseAfterElement;
      ghost var below, node := nodes[..|nodes| - 1], CurrentValue();
      ghost var r := G.ParseValue(input, current, Noted(), |nodes| + 1, G.NULL_NODE);
      Push(G.NULL_NODE);
      var s := ReadValue();
      if s.Threw? {
        return Leave(Threw);
      }
      assert nodes == below + [node, r.node];
      PopIntoItem();
      if !s.ok {
        var recovered := RecoverFromError(G.ArrayEnd);
        return Leave(recovered);
      }
      step := ReadAfterElement();
    }

    /** What follows an element. */
    method ReadAfterElement() returns (step: Step)
      requires InBounds() && |nodes| > 0 && CurrentValue().body.Items?
      modifies this
      ensures var before := G.ParseAfterElement(input, old(current), old(Noted()), |old(nodes)|, old(CurrentValue()));
              match step
              case Leave(s) => Agrees(before, s, old(nodes), old(errors))
              case Continue(_) =>
                && InBounds() && old(current) < current && errors == old(errors) && nodes == old(nodes)
                && before == G.ParseElements(input, current, Noted(), |nodes|, CurrentValue())
    {
      hide G.LexPastComments, G.Recover, G.ParseElements;
      assert nodes == nodes[..|nodes| - 1] + [CurrentValue()];
      var currentToken, threw := ReadTokenPastComments();
      if threw {
        return Leave(Threw);
      }
      if !currentToken.kind.ArraySeparator? && !currentToken.kind.ArrayEnd? {
        var recovered := AddErrorAndRecover(MissingCommaOrBracket, currentToken, G.ArrayEnd);
        return Leave(recovered);
      }
      if currentToken.kind.ArrayEnd? {
        return Leave(Returned(true));
      }
      step := Continue([]);
    }

    /** `parse` over the whole document, from a stack holding only the root. */
    method Parse(root: Node) returns (outcome: G.Outcome)
      modifies this
      ensures outcome == G.ParseDocument(input, root)
      ensures outcome.Finished? ==>
                nodes == [outcome.root] && errors == outcome.errors && current <= |input.doc|
    {
      hide G.ParseValue, G.Conclude;
      current, errors, nodes, lastValueEnd, commentsBefore := 0, [], [], None, [];
      Push(root);
      var s := ReadValue();
      outcome := Finish(s, G.ParseValue(input, 0, G.NO_NOTES, 1, root));
    }

    /** The end of `parse`: what follows the root value, and the root itself. */
    method Finish(s: Status, ghost r: G.Parsed) returns (outcome: G.Outcome)
      requires match r
               case Thrown => s.Threw?
               case Parsed(ok, node, pos, errs, notes) =>
                 && s == Returned(ok) && current == pos && InBounds() && nodes == [node] && errors == errs
                 && Noted() == notes
      modifies this
      ensures outcome == G.Conclude(input, r)
      ensures outcome.Finished? ==>
                nodes == [outcome.root] && errors == outcome.errors && current <= |input.doc|
    {
      if s.Threw? {
        return G.Threw;
      }
      hide G.NextToken, G.NotesNext, G.Rejected;
      var token, threw := SkipCommentTokens();
      if threw {
        return G.Threw;
      }
      var f := input.features;
      if f.failIfExtra && (f.strictRoot || !token.kind.ErrorToken?) && !token.kind.EndOfStream? {
        AddError(ExtraAfterValue, token);
        return G.Finished(false, CurrentValue(), errors);
      }
      if G.Collects(f) && commentsBefore != [] {
        var rejected := SetComment(commentsBefore);
        if rejected {
          return G.Threw;
        }
      }
      if f.strictRoot && CurrentValue().body.Leaf? {
        AddError(ArrayOrObjectRequired, G.Token(G.ErrorToken, 0, |input.doc|));
        return G.Finished(false, CurrentValue(), errors);
      }
      outcome := G.Finished(s.ok, CurrentValue(), errors);
    }
  }
}
