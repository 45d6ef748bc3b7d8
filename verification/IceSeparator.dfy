/**
 When a printed candidate holds the separator: only when one of its own strings does,
 as nothing else in the printed text is a hash and escaping keeps hashes apart that
 were apart.
 */
module IceSeparator {
  import opened Optional
  import opened Bytes
  import opened JsonText
  import opened JsonNumber
  import opened JsonValue
  import opened JsonStyled
  import opened IceBatch
  import JsonWriting

  const HASH: byte := 35

  /** Whether six hashes in a row come up when `n` were just seen. */
  predicate Sees(t: bytes, n: nat) {
    n >= 6 || (t != [] && Sees(t[1..], if t[0] == HASH then n + 1 else 0))
  }

  /** The hashes at the front of a text. */
  predicate HashesFrom(t: bytes, k: nat, n: nat) {
    k + n <= |t| && forall i :: k <= i < k + n ==> t[i] == HASH
  }

  lemma SeparatorAt(t: bytes, k: nat)
    ensures At(t, k, SEPARATOR) <==> HashesFrom(t, k, 6)
  {
    if k + 6 <= |t| {
      var part := t[k..k + 6];
      assert forall i :: 0 <= i < 6 ==> part[i] == t[k + i];
      if HashesFrom(t, k, 6) {
        assert part == SEPARATOR;
      }
      if part == SEPARATOR {
        forall i | k <= i < k + 6 ensures t[i] == HASH {
          assert part[i - k] == SEPARATOR[i - k];
        }
      }
    }
  }

  /** Six hashes come up just when the text completes the ones seen or holds six. */
  lemma {:induction false} SeesExactly(t: bytes, n: nat)
    requires n <= 6
    ensures Sees(t, n) <==> HashesFrom(t, 0, 6 - n) || Contains(t, SEPARATOR)
    decreases |t|
  {
    if n < 6 && t != [] {
      var n' := if t[0] == HASH then n + 1 else 0;
      SeesExactly(t[1..], n');
      HoldsInTail(t);
      SeparatorAt(t[1..], 0);
      if t[0] == HASH {
        assert HashesFrom(t, 0, 6 - n) <==> HashesFrom(t[1..], 0, 6 - n') by {
          assert forall i :: 0 <= i < |t| - 1 ==> t[1..][i] == t[i + 1];
        }
      }
      SeparatorAt(t, 0);
    } else if n < 6 {
      forall k | 0 <= k <= |t| ensures !At(t, k, SEPARATOR) {
      }
    }
  }

  lemma HoldsInTail(t: bytes)
    requires t != []
    ensures Contains(t, SEPARATOR) <==> At(t, 0, SEPARATOR) || Contains(t[1..], SEPARATOR)
  {
    forall k: nat | k < |t| ensures At(t[1..], k, SEPARATOR) <==> At(t, k + 1, SEPARATOR) {
      SeparatorAt(t[1..], k);
      SeparatorAt(t, k + 1);
      assert forall i :: 0 <= i < |t| - 1 ==> t[1..][i] == t[i + 1];
    }
    if Contains(t, SEPARATOR) && !At(t, 0, SEPARATOR) {
      var k :| 0 <= k <= |t| && At(t, k, SEPARATOR);
      assert At(t[1..], k - 1, SEPARATOR);
    }
    if Contains(t[1..], SEPARATOR) {
      var k :| 0 <= k <= |t[1..]| && At(t[1..], k, SEPARATOR);
      assert At(t, k + 1, SEPARATOR);
    }
  }

  lemma SeesIsContains(t: bytes)
    ensures Sees(t, 0) <==> Contains(t, SEPARATOR)
  {
    SeesExactly(t, 0);
    SeparatorAt(t, 0);
    if HashesFrom(t, 0, 6) {
      assert At(t, 0, SEPARATOR);
    }
  }

  /** A text with no hash in it separates. */
  predicate Plain(p: bytes) {
    p != [] && HASH !in p
  }

  lemma {:induction false} SeesPastPlain(p: bytes, rest: bytes, n: nat)
    requires Plain(p)
    ensures Sees(p + rest, n) <==> n >= 6 || Sees(rest, 0)
    decreases |p|
  {
    assert (p + rest)[1..] == p[1..] + rest;
    if |p| == 1 {
      assert p[1..] + rest == rest;
    } else {
      SeesPastPlain(p[1..], rest, 0);
    }
  }

  lemma {:induction false} SeesAround(x: bytes, p: bytes, rest: bytes, n: nat)
    requires Plain(p)
    ensures Sees(x + p + rest, n) <==> Sees(x, n) || Sees(rest, 0)
    decreases |x|
  {
    if x == [] {
      assert x + p + rest == p + rest;
      SeesPastPlain(p, rest, n);
    } else {
      assert (x + p + rest)[1..] == x[1..] + p + rest;
      if n < 6 {
        SeesAround(x[1..], p, rest, if x[0] == HASH then n + 1 else 0);
      }
    }
  }

  // ---------------------------------------------------------------- escaping

  /** A well-formed character is printed as itself if it is a hash, and otherwise
      neither it nor its text holds one. */
  lemma HeadHashes(s: bytes)
    requires s != [] && CharacterLength(s) > 0
    ensures var r, n := EscapeHead(s), CharacterLength(s);
            && r.used == n
            && if s[0] == HASH then n == 1 && r.text == [HASH] else Plain(r.text) && Plain(s[..n])
  {
  }

  lemma {:induction false} EscapeKeepsHashes(s: bytes, n: nat)
    requires WellFormedUtf8(s)
    ensures Sees(EscapeText(s), n) <==> Sees(s, n)
    decreases |s|
  {
    if s != [] {
      HeadHashes(s);
      var l := CharacterLength(s);
      var head, rest := EscapeHead(s).text, s[l..];
      assert s == s[..l] + rest;
      if s[0] == HASH {
        assert ([HASH] + EscapeText(rest))[1..] == EscapeText(rest);
        EscapeKeepsHashes(rest, n + 1);
      } else {
        EscapeKeepsHashes(rest, 0);
        SeesPastPlain(head, EscapeText(rest), n);
        SeesPastPlain(s[..l], rest, n);
      }
    }
  }

  lemma {:induction false} EscapeAddsNoHash(s: bytes)
    requires WellFormedUtf8(s) && HASH !in s
    ensures HASH !in EscapeText(s)
    decreases |s|
  {
    if s != [] {
      HeadHashes(s);
      EscapeAddsNoHash(s[CharacterLength(s)..]);
    }
  }

  // ---------------------------------------------------------------- the printed candidate

  /** The text in front of the candidate string, between the strings and behind them. */
  function Front(s: Style): bytes {
    [LBRACE] + (NewLine(s, 1) + Quoted(CANDIDATE) + s.colonSymbol) + [QUOTE]
  }

  function Middle(s: Style, index: int): bytes {
    [QUOTE] + [COMMA] + (NewLine(s, 1) + Quoted(SDP_MLINE_INDEX) + s.colonSymbol + IntText(index)) +
    [COMMA] + (NewLine(s, 1) + Quoted(SDP_MID) + s.colonSymbol) + [QUOTE]
  }

  function Back(s: Style): bytes {
    [QUOTE] + (NewLine(s, 0) + [RBRACE])
  }

  lemma PrintedShape(c: Candidate, showDouble: Double -> bytes)
    ensures var s := JsonWriting.NewStreamWriter(JsonWriting.DEFAULT_SETTINGS, showDouble);
            PrintCandidate(c, showDouble)
            == Front(s) + EscapeText(c.sdp) + Middle(s, c.mlineIndex) + EscapeText(c.mid) + Back(s)
  {
    hide StyledMembers, Front, Middle, Back, EscapeText;
    var s := JsonWriting.NewStreamWriter(JsonWriting.DEFAULT_SETTINGS, showDouble);
    CandidateMembers(c);
    StyledObject(s, CandidateValue(c), 0, true);
    MembersShape(s, c);
  }

  lemma MembersShape(s: Style, c: Candidate)
    ensures [LBRACE] + StyledMembers(s, CandidateValue(c).members, 1) + (NewLine(s, 0) + [RBRACE])
         == Front(s) + EscapeText(c.sdp) + Middle(s, c.mlineIndex) + EscapeText(c.mid) + Back(s)
  {
    hide EscapeText, NewLine, IntText, StyledMember, StyledMembers;
    var x, y, z := Member(CANDIDATE, Str(c.sdp)), Member(SDP_MLINE_INDEX, Int(c.mlineIndex)),
      Member(SDP_MID, Str(c.mid));
    CandidateMembers(c);
    ThreeMembers(s, x, y, z);
    StringMember(s, x, c.sdp);
    StringMember(s, z, c.mid);
    IntMember(s, y, c.mlineIndex);
    var a, b, d := NewLine(s, 1) + Quoted(CANDIDATE) + s.colonSymbol,
                   NewLine(s, 1) + Quoted(SDP_MLINE_INDEX) + s.colonSymbol + IntText(c.mlineIndex),
                   NewLine(s, 1) + Quoted(SDP_MID) + s.colonSymbol;
    Regrouped(a, EscapeText(c.sdp), b, d, EscapeText(c.mid), NewLine(s, 0) + [RBRACE]);
  }

  lemma ThreeMembers(s: Style, x: Member, y: Member, z: Member)
    ensures StyledMembers(s, [x, y, z], 1)
         == StyledMember(s, x, 1) + ([COMMA] + StyledMember(s, y, 1) + ([COMMA] + StyledMember(s, z, 1)))
  {
    hide StyledMember;
    assert [x, y, z][1..] == [y, z] && [y, z][1..] == [z] && [z][1..] == [];
    assert StyledMoreMembers(s, [z], 1) == [COMMA] + StyledMember(s, z, 1) + [];
    assert StyledMoreMembers(s, [y, z], 1) == [COMMA] + StyledMember(s, y, 1) + StyledMoreMembers(s, [z], 1);
  }

  lemma StringMember(s: Style, m: Member, t: bytes)
    requires m.value == Str(t)
    ensures StyledMember(s, m, 1) == NewLine(s, 1) + Quoted(m.name) + s.colonSymbol
        + ([QUOTE] + EscapeText(t) + [QUOTE])
  {
    hide EscapeText, NewLine;
  }

  lemma IntMember(s: Style, m: Member, i: int)
    requires m.value == Int(i)
    ensures StyledMember(s, m, 1) == NewLine(s, 1) + Quoted(m.name) + s.colonSymbol + IntText(i)
  {
    hide EscapeText, NewLine, IntText;
  }

  lemma Regrouped(a: bytes, x: bytes, b: bytes, d: bytes, y: bytes, e: bytes)
    ensures [LBRACE] + (a + ([QUOTE] + x + [QUOTE]) + ([COMMA] + b + ([COMMA] + (d + ([QUOTE] + y + [QUOTE]))))) + e
         == ([LBRACE] + a + [QUOTE]) + x + ([QUOTE] + [COMMA] + b + [COMMA] + d + [QUOTE]) + y + ([QUOTE] + e)
  {
  }

  lemma NameIsPlain(name: bytes)
    requires HASH !in name && forall k :: 0 <= k < |name| ==> name[k] < 0x80
    ensures HASH !in Quoted(name)
  {
    hide EscapeText, WellFormedUtf8;
    AsciiIsWellFormed(name);
    EscapeAddsNoHash(name);
  }

  lemma NamesArePlain()
    ensures HASH !in Quoted(CANDIDATE) && HASH !in Quoted(SDP_MLINE_INDEX) && HASH !in Quoted(SDP_MID)
  {
    hide Quoted;
    NameIsPlain(CANDIDATE);
    NameIsPlain(SDP_MID);
    NameIsPlain(SDP_MLINE_INDEX);
  }

  lemma DigitsHaveNoHash(i: int)
    ensures HASH !in IntText(i)
  {
    DigitsAreDigits(if i < 0 then -i else i);
  }

  lemma RestIsPlain(index: int, showDouble: Double -> bytes)
    ensures var s := JsonWriting.NewStreamWriter(JsonWriting.DEFAULT_SETTINGS, showDouble);
            Plain(Front(s)) && Plain(Middle(s, index)) && Plain(Back(s))
  {
    hide Quoted, IntText;
    var s := JsonWriting.NewStreamWriter(JsonWriting.DEFAULT_SETTINGS, showDouble);
    NamesArePlain();
    DigitsHaveNoHash(index);
    assert NewLine(s, 1) == [LF] + (Repeat([TAB], 0) + [TAB]);
    assert HASH !in NewLine(s, 1) && HASH !in NewLine(s, 0) && HASH !in s.colonSymbol;
  }

  /** A printed candidate holds the separator if and only if one of its strings does. */
  lemma PrintedHoldsSeparator(c: Candidate, showDouble: Double -> bytes)
    requires Portable(c)
    ensures Contains(PrintCandidate(c, showDouble), SEPARATOR)
        <==> Contains(c.sdp, SEPARATOR) || Contains(c.mid, SEPARATOR)
  {
    hide PrintCandidate, Front, Middle, Back, EscapeText, Contains, Plain, Sees, WellFormedUtf8;
    var s := JsonWriting.NewStreamWriter(JsonWriting.DEFAULT_SETTINGS, showDouble);
    var a, x, b, y, e := Front(s), EscapeText(c.sdp), Middle(s, c.mlineIndex), EscapeText(c.mid), Back(s);
    PrintedShape(c, showDouble);
    RestIsPlain(c.mlineIndex, showDouble);
    SeesStrings(a, x, b, y, e);
    EscapeKeepsHashes(c.sdp, 0);
    EscapeKeepsHashes(c.mid, 0);
    SeesIsContains(a + x + b + y + e);
    SeesIsContains(c.sdp);
    SeesIsContains(c.mid);
  }

  lemma SeesStrings(a: bytes, x: bytes, b: bytes, y: bytes, e: bytes)
    requires Plain(a) && Plain(b) && Plain(e)
    ensures Sees(a + x + b + y + e, 0) <==> Sees(x, 0) || Sees(y, 0)
  {
    assert a + x + b + y + e == a + (x + b + (y + e + []));
    SeesPastPlain(a, x + b + (y + e + []), 0);
    SeesAround(x, b, y + e + [], 0);
    SeesAround(y, e, [], 0);
  }

  /** A batch arrives if and only if no string of its candidates holds the separator. */
  lemma BatchArrivesExactly(cs: seq<Candidate>, scanDouble: bytes -> Option<Double>, showDouble: Double -> bytes)
    requires cs != [] && (forall k :: 0 <= k < |cs| ==> Portable(cs[k]))
    requires |Join(Printed(cs, showDouble))| <= MAX_SIZE
    ensures ParsePieces(Pieces(Join(Printed(cs, showDouble)), 0), scanDouble, showDouble) == Reads(cs)
            <==> forall k :: 0 <= k < |cs| ==> !Contains(cs[k].sdp, SEPARATOR) && !Contains(cs[k].mid, SEPARATOR)
  {
    hide ParsePieces, Pieces, Join, PrintCandidate, Contains, Portable;
    BatchRoundTrip(cs, scanDouble, showDouble);
    var texts := Printed(cs, showDouble);
    forall k | 0 <= k < |cs|
      ensures Contains(texts[k], SEPARATOR) <==> Contains(cs[k].sdp, SEPARATOR) || Contains(cs[k].mid, SEPARATOR)
    {
      PrintedAt(cs, showDouble, k);
      PrintedHoldsSeparator(cs[k], showDouble);
    }
  }

  lemma {:induction false} EscapeLength(s: bytes)
    ensures |EscapeText(s)| <= 12 * |s|
    decreases |s|
  {
    if s != [] {
      EscapeLength(s[EscapeHead(s).used..]);
    }
  }

  lemma ShortCandidate(c: Candidate, showDouble: Double -> bytes)
    requires c.mlineIndex == 0
    ensures |PrintCandidate(c, showDouble)| <= 12 * (|c.sdp| + |c.mid|) + 500
  {
    hide PrintCandidate, EscapeText;
    var s := JsonWriting.NewStreamWriter(JsonWriting.DEFAULT_SETTINGS, showDouble);
    PrintedShape(c, showDouble);
    EscapeLength(c.sdp);
    EscapeLength(c.mid);
    EscapeLength(CANDIDATE);
    EscapeLength(SDP_MLINE_INDEX);
    EscapeLength(SDP_MID);
    assert |NewLine(s, 1)| == 2 && |NewLine(s, 0)| == 1 && |s.colonSymbol| == 3 && |IntText(0)| == 1;
  }

  /** A candidate that is lost: its string is the separator. */
  lemma SixHashesAreLost(scanDouble: bytes -> Option<Double>, showDouble: Double -> bytes)
    ensures var c := Candidate([], 0, SEPARATOR);
            var message := Join(Printed([c], showDouble));
            && Portable(c) && Contains(PrintCandidate(c, showDouble), SEPARATOR) && |message| <= MAX_SIZE
            && ParsePieces(Pieces(message, 0), scanDouble, showDouble) != Reads([c])
  {
    hide ParsePieces, Pieces, PrintCandidate, WellFormedUtf8;
    var c := Candidate([], 0, SEPARATOR);
    AsciiIsWellFormed(SEPARATOR);
    AsciiIsWellFormed([]);
    assert At(SEPARATOR, 0, SEPARATOR);
    ShortCandidate(c, showDouble);
    assert Printed([c], showDouble) == [PrintCandidate(c, showDouble)];
    PrintedHoldsSeparator(c, showDouble);
    BatchArrivesExactly([c], scanDouble, showDouble);
    assert [c][0] == c;
  }
}
