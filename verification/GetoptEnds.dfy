/**
 How a run of the argument scanner can end early or go wrong: exactly which option tables
 let a call answer -1 for an option, what becomes of a long option of value -1, exactly
 which arguments make the scan give up, and what order such a run leaves.
 */
module ArgScannerEnds {
  import opened Optional
  import opened ArgScanner
  import opened ArgScannerRun

  predicate IsCall(rest: seq<cstring>, place: cstring) {
    place != [] ==> rest != [] && |place| < |rest[0]|
  }

  // ---------------------------------------------------------------- options that answer -1

  /** The answer is -1 although there was an option: it is not the end, and the scan does
      not give up. */
  predicate AnswersEarly(r: Scanned) {
    !r.standing.Lost? && r.code == -1 && (r.used > 0 || r.place != [])
  }

  predicate EndsEarly(cfg: Config, rest: seq<cstring>, place: cstring)
    requires IsCall(rest, place)
  {
    var r := CallOf(cfg, rest, place);
    r.Answer? && AnswersEarly(r.scanned)
  }

  /** "-W name" stands for "--name". */
  predicate LongW(cfg: Config) {
    cfg.longs.Some? && Has(Letters(cfg), IndexOf(Letters(cfg), UPPER_W) + 1, SEMICOLON)
  }

  /** The name "-" stands for a long option of value -1, and '-' is no option letter. */
  predicate DashEnds(cfg: Config) {
    && cfg.longs.Some? && DASH !in Letters(cfg)
    && exists m :: 0 <= m < |cfg.longs.value| && StandsFor(cfg.longs.value, m, [DASH])
  }

  /** Option `m` answers -1, and `name` stands for it. */
  predicate StandsFor(longs: seq<LongOption>, m: nat, name: cstring)
    requires m < |longs|
  {
    |name| <= |longs[m].name| && longs[m].name[..|name|] == name && AnswersEnd(longs, m, |name|)
  }

  predicate CanEndEarly(cfg: Config) {
    255 in Letters(cfg) || (LongW(cfg) && !Steady(cfg)) || DashEnds(cfg)
  }

  lemma LongEnds(cfg: Config, rest: seq<cstring>, cur: cstring, had: Option<cstring>)
    requires cfg.longs.Some? && LongOf(cfg, rest, cur, had).code == -1
    ensures !Steady(cfg)
    ensures EQUALS !in cur ==> exists m :: 0 <= m < |cfg.longs.value| && StandsFor(cfg.longs.value, m, cur)
  {
    hide LongMatch;
    var longs, eq := cfg.longs.value, IndexOf(cur, EQUALS);
    NameIsFront(longs, cur[..eq]);
    var m := LongMatch(longs, cur[..eq]).index;
    assert AnswersEnd(longs, m, eq);
    if EQUALS !in cur {
      assert cur[..eq] == cur;
      assert StandsFor(longs, m, cur);
    }
  }

  lemma LetterEnds(cfg: Config, rest: seq<cstring>, place: cstring, had: Option<cstring>, standing: Standing)
    requires place != [] && !standing.Lost? && LetterOf(cfg, rest, place, had, standing).code == -1
    ensures 255 in Letters(cfg) || (LongW(cfg) && !Steady(cfg))
         || (place == [DASH] && DASH !in Letters(cfg) && LetterOf(cfg, rest, place, had, standing).used == 0
             && LetterOf(cfg, rest, place, had, standing).place == [])
  {
    hide LongOf, Letters, Steady;
    var letters, c, p := Letters(cfg), place[0], place[1..];
    var oli := IndexOf(letters, c);
    if oli < |letters| && AsInt(c) == -1 {
      assert letters[oli] == 255;
    } else if oli < |letters| && cfg.longs.Some? && c == UPPER_W && Has(letters, oli + 1, SEMICOLON) {
      if p != [] {
        LongEnds(cfg, rest, p, had);
      } else if |rest| > 1 {
        LongEnds(cfg, rest[1..], rest[1], had);
      }
    }
  }

  /** Wherever the scan stands, an early -1 has one of the three causes. */
  lemma EarlyHasCause(cfg: Config, rest: seq<cstring>, place: cstring, behind: bool)
    requires place != [] && AnswersEarly(ScanAt(cfg, rest, place, behind))
    ensures CanEndEarly(cfg)
  {
    hide LongOf, LetterOf, Letters, Steady, LongW, StandsFor, FallThrough, Falls, ScanAt;
    ScanCases(cfg, rest, place, behind);
    if !AtLong(cfg, rest, place, behind) {
      LetterEnds(cfg, rest, place, None, if behind then Behind else Inside);
    } else {
      var long := LongOf(cfg, rest, place[1..], None);
      if long.code == -1 && place[1..] != [] {
        LetterEnds(cfg, Drop(rest, long.used), place[1..], long.optarg, Behind);
        LongEnds(cfg, rest, place[1..], None);
      }
    }
  }

  /** A call that starts with an option comes to the letters of that option. */
  lemma AtFirst(cfg: Config, rest: seq<cstring>)
    requires rest != [] && |rest[0]| > 1 && rest[0][0] == DASH && !Terminator(rest[0])
    ensures CallOf(cfg, rest, []) == Answer(0, ScanOption(cfg, rest, rest[0][1..]))
  {
    hide ScanOption, Letters, AllArgs, Permuting;
    assert rest[0..] == rest;
  }

  lemma LetterEndsEarly(cfg: Config)
    requires 255 in Letters(cfg)
    ensures EndsEarly(cfg, [[DASH, 255], [DASH]], [])
  {
    var letters := Letters(cfg);
    var rest: seq<cstring> := [[DASH, 255], [DASH]];
    var k :| 0 <= k < |letters| && letters[k] == 255;
    assert IndexOf(letters, 255) <= k;
    hide Letters;
    AtFirst(cfg, rest);
  }

  /** A name that stands for a flagless long option of value -1, on its own. */
  lemma LongAnswers(cfg: Config, rest: seq<cstring>, m: nat, name: cstring)
    requires cfg.longs.Some? && m < |cfg.longs.value| && StandsFor(cfg.longs.value, m, name) && |rest| >= 2
    ensures LongOf(cfg, rest, name, None).code == -1
  {
    hide LongMatch;
    assert IndexOf(name, EQUALS) == |name| && name[..|name|] == name;
  }

  /** "-W name" returns the -1. */
  lemma NameEndsEarly(cfg: Config, m: nat, name: cstring)
    requires LongW(cfg) && m < |cfg.longs.value| && StandsFor(cfg.longs.value, m, name)
    ensures EndsEarly(cfg, [[DASH, UPPER_W], name, [DASH]], [])
  {
    hide LongOf, Letters, StandsFor, CallOf;
    var rest: seq<cstring> := [[DASH, UPPER_W], name, [DASH]];
    assert rest[1..] == [name, [DASH]] && rest[0][1..] == [UPPER_W];
    LongAnswers(cfg, rest[1..], m, name);
    AtFirst(cfg, rest);
  }

  /** "---" falls through to a '-' that is no option letter. */
  lemma DashesEndEarly(cfg: Config)
    requires DashEnds(cfg)
    ensures EndsEarly(cfg, [[DASH, DASH, DASH], [DASH]], [])
  {
    hide LongOf, Letters, StandsFor, ScanAt, CallOf;
    var rest: seq<cstring>, place: cstring := [[DASH, DASH, DASH], [DASH]], [DASH, DASH];
    var m :| 0 <= m < |cfg.longs.value| && StandsFor(cfg.longs.value, m, [DASH]);
    assert place[1..] == [DASH] && rest[0][1..] == place;
    LongAnswers(cfg, rest, m, [DASH]);
    ScanCases(cfg, rest, place, false);
    AtFirst(cfg, rest);
  }

  /** Some call answers -1 for an option if and only if 255 is an option letter, or "W;" is
      among the letters and a name stands for a flagless long option of value -1, or the
      name "-" does and '-' is no option letter. */
  lemma EndsEarlyExactly(cfg: Config)
    ensures CanEndEarly(cfg)
        <==> exists rest: seq<cstring>, place: cstring :: IsCall(rest, place) && EndsEarly(cfg, rest, place)
  {
    hide EndsEarly, LongMatch, Letters, LongW, DashEnds;
    if 255 in Letters(cfg) {
      LetterEndsEarly(cfg);
    }
    if LongW(cfg) && !Steady(cfg) {
      var m, name := UnsteadyName(cfg);
      NameEndsEarly(cfg, m, name);
    }
    if DashEnds(cfg) {
      DashesEndEarly(cfg);
    }
    if rest: seq<cstring>, place: cstring :| IsCall(rest, place) && EndsEarly(cfg, rest, place) {
      CallHasCause(cfg, rest, place);
    }
  }

  lemma CallHasCause(cfg: Config, rest: seq<cstring>, place: cstring)
    requires IsCall(rest, place) && EndsEarly(cfg, rest, place)
    ensures CanEndEarly(cfg)
  {
    hide ScanAt, CanEndEarly, MoveOf;
    CallCases(cfg, rest, place);
    if place != [] {
      EarlyHasCause(cfg, rest, place, false);
    } else {
      var m := MoveOf(cfg, rest).skip;
      EarlyHasCause(cfg, rest[m..], FirstPlace(rest[m]), false);
    }
  }

  lemma UnsteadyName(cfg: Config) returns (m: nat, name: cstring)
    requires !Steady(cfg)
    ensures cfg.longs.Some? && m < |cfg.longs.value| && StandsFor(cfg.longs.value, m, name)
  {
    hide LongMatch;
    var longs := cfg.longs.value;
    var k, n :| 0 <= k < |longs| && 0 <= n <= |longs[k].name| && AnswersEnd(longs, k, n);
    m, name := k, longs[k].name[..n];
  }

  // ---------------------------------------------------------------- long options that fall through

  /** The call comes to a long option that answers -1. */
  predicate CallFalls(cfg: Config, rest: seq<cstring>, place: cstring)
    requires IsCall(rest, place)
  {
    if place != [] then Falls(cfg, rest, place, false)
    else
      match MoveOf(cfg, rest)
      case Open(m) => Falls(cfg, rest[m..], FirstPlace(rest[m]), false)
      case _ => false
  }

  lemma NameFalls(cfg: Config, m: nat, name: cstring)
    requires cfg.longs.Some? && m < |cfg.longs.value| && StandsFor(cfg.longs.value, m, name)
    ensures var place, rest := [DASH] + name, [[DASH, COLON, DASH] + name, [DASH]];
            IsCall(rest, place) && CallFalls(cfg, rest, place)
  {
    hide LongOf, StandsFor;
    var place: cstring, rest: seq<cstring> := [DASH] + name, [[DASH, COLON, DASH] + name, [DASH]];
    assert place[1..] == name;
    LongAnswers(cfg, rest, m, name);
  }

  /** Option tables are `Steady` just when no long option falls through. */
  lemma SteadyExactly(cfg: Config)
    ensures Steady(cfg)
        <==> forall rest: seq<cstring>, place: cstring | IsCall(rest, place) :: !CallFalls(cfg, rest, place)
  {
    hide Steady, LongOf;
    if !Steady(cfg) {
      var m, name := UnsteadyName(cfg);
      NameFalls(cfg, m, name);
    }
  }

  /** Option tables are `Sound` just when no call answers -1 for an option and no long
      option falls through. */
  lemma SoundExactly(cfg: Config)
    ensures Sound(cfg)
        <==> forall rest: seq<cstring>, place: cstring | IsCall(rest, place) ::
               !EndsEarly(cfg, rest, place) && !CallFalls(cfg, rest, place)
  {
    hide EndsEarly, CallFalls, Letters, Steady;
    SteadyExactly(cfg);
    EndsEarlyExactly(cfg);
    if Steady(cfg) {
      NoDashEnds(cfg);
    }
    if 255 in Letters(cfg) {
      LetterEndsEarly(cfg);
    }
  }

  lemma NoDashEnds(cfg: Config)
    requires Steady(cfg)
    ensures !DashEnds(cfg)
  {
    hide AnswersEnd;
  }

  // ---------------------------------------------------------------- what falling through does

  /** How many arguments the rest of a name uses up, with `optind` already behind it;
      `None` if the code loses its way. */
  function LettersUse(cfg: Config, rest: seq<cstring>, place: cstring): Option<nat>
    requires place != []
    decreases |place|
  {
    var s := ScanAt(cfg, rest, place, true);
    if s.standing.Lost? then None
    else if s.place == [] then Some(s.used)
    else
      match LettersUse(cfg, Drop(rest, s.used), s.place)
      case None => None
      case Some(n) => Some(s.used + n)
  }

  /** The same of a whole option at `place` in the first of the arguments. */
  function OptionUses(cfg: Config, rest: seq<cstring>, place: cstring): Option<nat>
    requires place != []
  {
    var s := ScanAt(cfg, rest, place, false);
    if s.standing.Lost? then None
    else if s.place == [] then Some(s.used)
    else
      match LettersUse(cfg, Drop(rest, s.used), s.place)
      case None => None
      case Some(n) => Some(s.used + n)
  }

  lemma {:induction false} LettersUseSome(cfg: Config, rest: seq<cstring>, place: cstring)
    requires cfg.longs.Some? && place != [] && LettersUse(cfg, rest, place).Some?
    ensures LettersUse(cfg, rest, place).value > 0
    decreases |place|
  {
    hide LongOf, LetterOf, ScanAt, Falls, FallThrough, Letters;
    ScanCases(cfg, rest, place, true);
    var s := ScanAt(cfg, rest, place, true);
    if s.place != [] {
      LettersUseSome(cfg, Drop(rest, s.used), s.place);
    }
  }

  /** A long option that falls through uses up at least one argument more than the option
      and its own argument: the last letter of its name moves `optind` once again.  The one
      exception is the name "-", which ends the scan. */
  lemma FallThroughSwallows(cfg: Config, rest: seq<cstring>, place: cstring)
    requires place != [] && Falls(cfg, rest, place, false) && OptionUses(cfg, rest, place).Some?
    ensures var own := LongOf(cfg, rest, place[1..], None).used;
            OptionUses(cfg, rest, place).value > own
            || (place[1..] == [DASH] && DashEnds(cfg) && AnswersEarly(ScanAt(cfg, rest, place, false)))
  {
    hide LongOf, LetterOf, ScanAt, FallThrough, Letters, LettersUse, StandsFor;
    ScanCases(cfg, rest, place, false);
    LongEnds(cfg, rest, place[1..], None);
    var s := ScanAt(cfg, rest, place, false);
    if s.place != [] {
      LettersUseSome(cfg, Drop(rest, s.used), s.place);
    }
  }

  /** A letter that needs no argument and is no '-'. */
  predicate Plain(cfg: Config, c: cchar) {
    c != DASH && NeedsNothing(cfg, c) && !(c == UPPER_W && LongW(cfg))
  }

  /** What is answered for a plain letter does not depend on the arguments left. */
  lemma PlainLetter(cfg: Config, rest: seq<cstring>, place: cstring, had: Option<cstring>)
    requires place != [] && Plain(cfg, place[0])
    ensures var c := place[0];
            var known := c != COLON && IndexOf(Letters(cfg), c) < |Letters(cfg)|;
            LetterOf(cfg, rest, place, had, Behind)
            == Scanned(if known then AsInt(c) else BADCH, if |place| == 1 then 1 else 0, place[1..], had,
                       if known then None else Some(AsInt(c)), None, None, if |place| == 1 then Inside else Behind)
  {
    hide Letters;
  }

  lemma {:induction false} PlainLettersUseOne(cfg: Config, rest: seq<cstring>, place: cstring)
    requires place != [] && forall k :: 0 <= k < |place| ==> Plain(cfg, place[k])
    ensures LettersUse(cfg, rest, place) == Some(1)
    decreases |place|
  {
    hide LetterOf, Letters, Plain;
    PlainLetter(cfg, rest, place, None);
    assert place[0] != DASH by { PlainIsNoDash(cfg, place[0]); }
    if |place| > 1 {
      assert forall k :: 0 <= k < |place| - 1 ==> place[1..][k] == place[k + 1];
      PlainLettersUseOne(cfg, Drop(rest, 0), place[1..]);
    }
  }

  lemma PlainIsNoDash(cfg: Config, c: cchar)
    requires Plain(cfg, c)
    ensures c != DASH
  {
  }

  /** A name of plain letters swallows just the one argument behind, unseen. */
  lemma PlainNameSwallowsOne(cfg: Config, rest: seq<cstring>, place: cstring)
    requires |place| > 1 && Falls(cfg, rest, place, false)
    requires forall k :: 1 <= k < |place| ==> Plain(cfg, place[k])
    ensures OptionUses(cfg, rest, place) == Some(LongOf(cfg, rest, place[1..], None).used + 1)
  {
    hide LongOf, LetterOf, Letters, Plain, ScanAt, FallThrough, LettersUse;
    ScanCases(cfg, rest, place, false);
    var long, name := LongOf(cfg, rest, place[1..], None), place[1..];
    PlainLetter(cfg, Drop(rest, long.used), name, long.optarg);
    if |name| > 1 {
      assert forall k :: 0 <= k < |name| - 1 ==> name[1..][k] == place[k + 2];
      PlainLettersUseOne(cfg, Drop(rest, long.used), name[1..]);
    }
  }

  /** Options "ab" and "--foo", whose value is -1. */
  const FOO: cstring := [102, 111, 111]
  const FOO_TABLE: Config := Config([97, 98], Some([LongOption(FOO, NoArgument, None, -1)]), true)

  /** "--foo" answers '?' three times, and the argument behind it, whatever that is, is
      used without being looked at; if there is none, `optind` ends up past the end. */
  lemma FooSwallows(rest: seq<cstring>)
    requires rest != [] && rest[0] == [DASH, DASH] + FOO
    ensures var after := rest[1..];
            && CallOf(FOO_TABLE, rest, [])
               == Answer(0, Scanned(BADCH, 1, [111, 111], None, Some(102), Some(0), None, Behind))
            && ScanAt(FOO_TABLE, after, [111, 111], true)
               == Scanned(BADCH, 0, [111], None, Some(111), None, None, Behind)
            && ScanAt(FOO_TABLE, after, [111], true) == Scanned(BADCH, 1, [], None, Some(111), None, None, Inside)
  {
    hide LetterOf, LongOf, FallThrough, Falls, ScanAt;
    var place := [DASH] + FOO;
    FooFalls(rest);
    assert FirstPlace(rest[0]) == place && rest[0..] == rest && place[1..] == FOO;
    assert Drop(rest, 1) == rest[1..] && Drop(rest[1..], 0) == rest[1..];
    ScanCases(FOO_TABLE, rest, place, false);
    FooLetter(rest[1..], FOO);
    FooLetter(rest[1..], [111, 111]);
    FooLetter(rest[1..], [111]);
    ScanCases(FOO_TABLE, rest[1..], [111, 111], true);
    ScanCases(FOO_TABLE, rest[1..], [111], true);
  }

  lemma FooUsesTwo(rest: seq<cstring>)
    requires rest != [] && rest[0] == [DASH, DASH] + FOO
    ensures OptionUses(FOO_TABLE, rest, [DASH] + FOO) == Some(2)
  {
    hide LongOf, OptionUses, IndexOf;
    var place := [DASH] + FOO;
    assert place[1..] == FOO;
    FooFalls(rest);
    forall k | 1 <= k < |place| ensures Plain(FOO_TABLE, place[k]) {
      FooIsPlain(place[k]);
    }
    PlainNameSwallowsOne(FOO_TABLE, rest, place);
  }

  lemma FooIsPlain(c: cchar)
    requires c in FOO
    ensures Plain(FOO_TABLE, c) && IndexOf([97, 98], c) == 2
  {
  }

  lemma FooFalls(rest: seq<cstring>)
    requires rest != []
    ensures LongOf(FOO_TABLE, rest, FOO, None) == Scanned(-1, 1, [], None, None, Some(0), None, Inside)
  {
    assert IndexOf(FOO, EQUALS) == 3 && FOO[..3] == FOO;
    assert LongMatch(FOO_TABLE.longs.value, FOO) == Matched(0);
  }

  lemma FooLetter(rest: seq<cstring>, place: cstring)
    requires place != [] && place[0] in FOO
    ensures LetterOf(FOO_TABLE, rest, place, None, Behind)
         == Scanned(BADCH, if |place| == 1 then 1 else 0, place[1..], None, Some(place[0]), None, None,
                    if |place| == 1 then Inside else Behind)
  {
    FooIsPlain(place[0]);
    PlainLetter(FOO_TABLE, rest, place, None);
  }

  // ---------------------------------------------------------------- leaving the arguments

  /** The rest of a name, with `optind` already behind it, makes the code read past an end
      or moves `optind` past argc. */
  predicate LettersLeave(cfg: Config, rest: seq<cstring>, place: cstring)
    requires place != []
    decreases |place|
  {
    var s := ScanAt(cfg, rest, place, true);
    s.standing.Lost? || s.used > |rest| || (s.place != [] && LettersLeave(cfg, rest[s.used..], s.place))
  }

  /** An option at `place` in the first of the arguments does, at once or by its letters. */
  predicate OptionLeaves(cfg: Config, rest: seq<cstring>, place: cstring)
    requires place != []
  {
    var s := ScanAt(cfg, rest, place, false);
    || s.standing.Lost? || s.used > |rest|
    || (s.standing.Behind? && s.place != [] && LettersLeave(cfg, rest[s.used..], s.place))
  }

  /** With no arguments left any letters leave. */
  lemma {:induction false} NothingLeft(cfg: Config, place: cstring)
    requires cfg.longs.Some? && place != []
    ensures LettersLeave(cfg, [], place)
    decreases |place|
  {
    hide LongOf, LetterOf, ScanAt, Falls, FallThrough, Letters;
    ScanCases(cfg, [], place, true);
    var s := ScanAt(cfg, [], place, true);
    if !s.standing.Lost? && s.used == 0 {
      assert s.place != [];
      NothingLeft(cfg, s.place);
    }
  }

  /** An option that falls through with no arguments left behind its own. */
  lemma FallsAtEnd(cfg: Config, rest: seq<cstring>, place: cstring)
    requires place != [] && Falls(cfg, rest, place, false) && |rest| == LongOf(cfg, rest, place[1..], None).used
    requires place[1..] != [DASH] || DASH in Letters(cfg)
    ensures OptionLeaves(cfg, rest, place)
  {
    hide LongOf, LetterOf, ScanAt, FallThrough, Letters, LettersLeave;
    ScanCases(cfg, rest, place, false);
    var s := ScanAt(cfg, rest, place, false);
    if !s.standing.Lost? && s.used <= |rest| {
      assert rest[s.used..] == [];
      NothingLeft(cfg, s.place);
    }
  }

  /** A name that falls through and does not just end the scan. */
  predicate Strays(cfg: Config, m: nat, name: cstring)
    requires cfg.longs.Some? && m < |cfg.longs.value|
  {
    && StandsFor(cfg.longs.value, m, name)
    && (name != [DASH] || DASH in Letters(cfg) || !cfg.longs.value[m].hasArg.NoArgument?)
  }

  lemma NameOfLong(cfg: Config, rest: seq<cstring>, cur: cstring)
    requires cfg.longs.Some? && LongOf(cfg, rest, cur, None).code == -1
    ensures exists m ::
              && 0 <= m < |cfg.longs.value| && StandsFor(cfg.longs.value, m, cur[..IndexOf(cur, EQUALS)])
              && (cfg.longs.value[m].hasArg.NoArgument? ==> IndexOf(cur, EQUALS) == |cur|)
  {
    hide LongMatch;
    var longs, eq := cfg.longs.value, IndexOf(cur, EQUALS);
    NameIsFront(longs, cur[..eq]);
    var m := LongMatch(longs, cur[..eq]).index;
    assert AnswersEnd(longs, m, eq) && StandsFor(longs, m, cur[..eq]);
  }

  /** An option that leaves the arguments has a name that strays. */
  lemma LeavingStrays(cfg: Config, rest: seq<cstring>, place: cstring)
    requires rest != [] && place != [] && OptionLeaves(cfg, rest, place)
    ensures cfg.longs.Some? && exists m, name :: 0 <= m < |cfg.longs.value| && Strays(cfg, m, name)
  {
    hide LongOf, LetterOf, ScanAt, FallThrough, Letters, LettersLeave, StandsFor;
    ScanCases(cfg, rest, place, false);
    assert Falls(cfg, rest, place, false);
    var cur := place[1..];
    NameOfLong(cfg, rest, cur);
    var name := cur[..IndexOf(cur, EQUALS)];
    var m :| 0 <= m < |cfg.longs.value| && StandsFor(cfg.longs.value, m, name)
      && (cfg.longs.value[m].hasArg.NoArgument? ==> IndexOf(cur, EQUALS) == |cur|);
    if !Strays(cfg, m, name) {
      assert cur == [DASH];
      LoneDash(cfg, Drop(rest, LongOf(cfg, rest, cur, None).used), LongOf(cfg, rest, cur, None).optarg);
      assert false;
    }
    assert Strays(cfg, m, name);
  }

  lemma LoneDash(cfg: Config, rest: seq<cstring>, had: Option<cstring>)
    requires DASH !in Letters(cfg)
    ensures LetterOf(cfg, rest, [DASH], had, Behind) == Scanned(-1, 0, [], had, None, None, None, Inside)
  {
    hide Letters;
  }

  /** A long option of value -1, alone or with the one argument it needs. */
  lemma LongAlone(cfg: Config, rest: seq<cstring>, m: nat, name: cstring, cur: cstring)
    requires cfg.longs.Some? && m < |cfg.longs.value| && StandsFor(cfg.longs.value, m, name)
    requires cur == name || (cur == name + [EQUALS, EQUALS] && !cfg.longs.value[m].hasArg.NoArgument?)
    requires |rest| == if cur == name && cfg.longs.value[m].hasArg.RequiredArgument? then 2 else 1
    ensures LongOf(cfg, rest, cur, None).code == -1 && LongOf(cfg, rest, cur, None).used == |rest|
  {
    hide LongMatch;
    assert EQUALS !in name;
    FrontUpToEquals(name, cur);
  }

  lemma {:induction false} FrontUpToEquals(name: cstring, cur: cstring)
    requires EQUALS !in name && (cur == name || cur == name + [EQUALS, EQUALS])
    ensures IndexOf(cur, EQUALS) == |name| && cur[..|name|] == name
    ensures cur == name ==> IndexOf(cur, EQUALS) == |cur|
    ensures cur != name ==> IndexOf(cur, EQUALS) < |cur|
  {
    assert forall k :: 0 <= k < |name| ==> cur[k] == name[k] && name[k] in name;
    if cur != name {
      assert cur[|name|] == EQUALS;
    }
  }

  /** A name that strays has an option that leaves the arguments. */
  lemma StrayLeaves(cfg: Config, m: nat, name: cstring)
    requires cfg.longs.Some? && m < |cfg.longs.value| && Strays(cfg, m, name)
    ensures exists rest: seq<cstring>, place: cstring ::
      place != [] && IsCall(rest, place) && OptionLeaves(cfg, rest, place)
  {
    hide LongOf, Letters, StandsFor, ScanAt, OptionLeaves;
    var ends := name == [DASH] && DASH !in Letters(cfg);
    var cur := if ends then name + [EQUALS, EQUALS] else name;
    var place: cstring, first: cstring := [DASH] + cur, [DASH, COLON, DASH] + cur;
    var alone := ends || !cfg.longs.value[m].hasArg.RequiredArgument?;
    var rest: seq<cstring> := if alone then [first] else [first, [DASH]];
    assert place[1..] == cur;
    LongAlone(cfg, rest, m, name, cur);
    FallsAtEnd(cfg, rest, place);
    assert IsCall(rest, place);
  }

  /** Some option makes the code read past an end, or moves `optind` past argc, if and only
      if some front of a name stands for a flagless long option of value -1, other than
      the name "-" of an option without argument where '-' is no option letter. */
  lemma LeavesExactly(cfg: Config)
    ensures (exists rest: seq<cstring>, place: cstring ::
               place != [] && IsCall(rest, place) && OptionLeaves(cfg, rest, place))
        <==> cfg.longs.Some? && exists m, name :: 0 <= m < |cfg.longs.value| && Strays(cfg, m, name)
  {
    hide OptionLeaves, Strays;
    if rest: seq<cstring>, place: cstring :| place != [] && IsCall(rest, place) && OptionLeaves(cfg, rest, place) {
      LeavingStrays(cfg, rest, place);
    }
    if cfg.longs.Some? {
      if m, name :| 0 <= m < |cfg.longs.value| && Strays(cfg, m, name) {
        StrayLeaves(cfg, m, name);
      }
    }
  }

  /** "--foo" alone moves `optind` past argc. */
  lemma FooLeaves()
    ensures OptionLeaves(FOO_TABLE, [[DASH, DASH] + FOO], [DASH] + FOO)
  {
    hide LongOf, OptionLeaves;
    var rest: seq<cstring>, place := [[DASH, DASH] + FOO], [DASH] + FOO;
    assert place[1..] == FOO;
    FooFalls(rest);
    FallsAtEnd(FOO_TABLE, rest, place);
  }

  // ---------------------------------------------------------------- arguments that stick

  /** A letter that takes no argument, or none of the option letters. */
  predicate NeedsNothing(cfg: Config, c: cchar) {
    var letters := Letters(cfg);
    c == COLON || c == DASH || IndexOf(letters, c) == |letters| || !Has(letters, IndexOf(letters, c) + 1, COLON)
  }

  /** The options end in a '-' that is none, and no letter before it takes an argument. */
  predicate Sticks(cfg: Config, place: cstring) {
    && cfg.longs.None? && DASH !in Letters(cfg)
    && place != [] && place[|place| - 1] == DASH
    && forall k :: 0 <= k < |place| - 1 ==> NeedsNothing(cfg, place[k])
  }

  /** The scan gives up in an argument exactly if it sticks. */
  lemma {:induction false} SpanIsNoneExactly(cfg: SteadyConfig, rest: seq<cstring>, place: cstring)
    requires rest != [] && place != [] && |place| <= |rest[0]|
    requires |place| == |rest[0]| ==> DASH in Letters(cfg)
    ensures Span(cfg, rest, place) == None <==> Sticks(cfg, place)
    decreases |place|
  {
    hide Letters, LongOf;
    ScanSticks(cfg, rest, place);
    var s := ScanOption(cfg, rest, place);
    if s.used == 0 && s.place != [] {
      SpanIsNoneExactly(cfg, rest, s.place);
      SticksLater(cfg, place);
    }
  }

  /** One option of an argument that may stick. */
  lemma ScanSticks(cfg: SteadyConfig, rest: seq<cstring>, place: cstring)
    requires rest != [] && place != [] && |place| <= |rest[0]|
    requires |place| == |rest[0]| ==> DASH in Letters(cfg)
    ensures var s := ScanOption(cfg, rest, place);
            && (s.used > 0 ==> !Sticks(cfg, place))
            && (s.used == 0 && s.place == [] ==> Sticks(cfg, place))
            && (s.used == 0 && s.place != [] ==>
              s.place == place[1..] && (cfg.longs.None? ==> NeedsNothing(cfg, place[0])))
  {
    hide LongOf;
    var letters := Letters(cfg);
    assert IndexOf(letters, DASH) == |letters| <==> DASH !in letters;
    if |place| > 1 && cfg.longs.None? && ScanOption(cfg, rest, place).used > 0 {
      assert !NeedsNothing(cfg, place[0]);
    }
  }

  lemma SticksLater(cfg: Config, place: cstring)
    requires |place| > 1 && (cfg.longs.None? ==> NeedsNothing(cfg, place[0]))
    ensures Sticks(cfg, place) <==> Sticks(cfg, place[1..])
  {
    hide NeedsNothing, Letters;
    var rest := place[1..];
    assert rest[|rest| - 1] == place[|place| - 1];
    if Sticks(cfg, rest) {
      forall k | 0 <= k < |place| - 1 ensures NeedsNothing(cfg, place[k]) {
        if k > 0 {
          assert place[k] == rest[k - 1];
        }
      }
    }
    if Sticks(cfg, place) {
      forall k | 0 <= k < |rest| - 1 ensures NeedsNothing(cfg, rest[k]) {
        assert rest[k] == place[k + 1];
      }
    }
  }

  /** A run that gives up does so at the first argument it did not mark, and that sticks;
      any other run has marked all arguments or ends behind a "--". */
  lemma {:induction false} StuckAtArgument(cfg: SteadyConfig, rest: seq<cstring>)
    ensures var n := |Marks(cfg, rest)|;
            if Stuck(cfg, rest) then
              n < |rest| && !NonOption(cfg, rest[n]) && !Terminator(rest[n]) && Sticks(cfg, FirstPlace(rest[n]))
            else n == |rest| || (n > 0 && Terminator(rest[n - 1]))
    decreases |rest|
  {
    hide ScanOption, Letters, Terminator, NonOption, Sticks, FirstPlace;
    if rest == [] {
    } else if NonOption(cfg, rest[0]) {
      StuckAtArgument(cfg, rest[1..]);
      assert forall j :: 0 <= j < |rest| - 1 ==> rest[1..][j] == rest[j + 1];
    } else if Terminator(rest[0]) {
      assert Marks(cfg, rest) == [true];
    } else {
      NonOptionFacts(cfg, rest[0]);
      var place := FirstPlace(rest[0]);
      SpanIsNoneExactly(cfg, rest, place);
      match Span(cfg, rest, place) {
        case None => assert Marks(cfg, rest) == [] && StuckFrom(cfg, rest, place) && Stuck(cfg, rest);
        case Some(k) =>
          StuckAtArgument(cfg, rest[k..]);
          assert Marks(cfg, rest) == Same(k, true) + Marks(cfg, rest[k..]);
          assert Stuck(cfg, rest) == Stuck(cfg, rest[k..]);
          assert forall j :: 0 <= j < |rest| - k ==> rest[k..][j] == rest[j + k];
      }
    }
  }

  /** Some arguments make the scan give up if and only if there are no long options and
      '-' is no option letter. */
  lemma SomeInputSticks(cfg: SteadyConfig)
    requires Sound(cfg)
    ensures (exists rest :: Stuck(cfg, rest)) <==> cfg.longs.None? && DASH !in Letters(cfg)
  {
    hide Stuck, Sound;
    if cfg.longs.None? && DASH !in Letters(cfg) {
      DashColonDash(cfg);
    }
    if rest :| Stuck(cfg, rest) {
      StuckNeedsPlainDash(cfg, rest);
    }
  }

  /** "-:-" is such an argument. */
  lemma DashColonDash(cfg: SteadyConfig)
    requires cfg.longs.None? && DASH !in Letters(cfg)
    ensures Stuck(cfg, [[DASH, COLON, DASH]])
  {
    hide ScanOption, Letters;
    var rest: seq<cstring> := [[DASH, COLON, DASH]];
    assert FirstPlace(rest[0]) == [COLON, DASH];
    SpanIsNoneExactly(cfg, rest, [COLON, DASH]);
  }

  // ---------------------------------------------------------------- the order a run that gives up leaves

  /** A mark that says skipped stands at a non-option, and a used argument behind a skipped
      one, or in front of all, is an option. */
  lemma {:induction false} MarksMean(cfg: SteadyConfig, rest: seq<cstring>, j: nat)
    requires j < |Marks(cfg, rest)|
    ensures !Marks(cfg, rest)[j] ==> NonOption(cfg, rest[j])
    ensures Marks(cfg, rest)[j] && (j == 0 || !Marks(cfg, rest)[j - 1]) ==> !NonOption(cfg, rest[j])
    decreases |rest|
  {
    hide NonOption, Terminator, Span, FirstPlace;
    if NonOption(cfg, rest[0]) {
      if j > 0 {
        MarksMean(cfg, rest[1..], j - 1);
      }
    } else if !Terminator(rest[0]) {
      NonOptionFacts(cfg, rest[0]);
      var k := Span(cfg, rest, FirstPlace(rest[0])).value;
      SameAt(k, true);
      if j >= k {
        MarksMean(cfg, rest[k..], j - k);
      }
    }
  }

  lemma {:induction false} SameAt(k: nat, b: bool)
    ensures forall i :: 0 <= i < k ==> Same(k, b)[i] == b
  {
    if k > 0 {
      SameAt(k - 1, b);
    }
  }

  lemma {:induction false} SkippedAre(cfg: SteadyConfig, args: seq<cstring>, marks: seq<bool>)
    requires |marks| <= |args| && forall j :: 0 <= j < |marks| && !marks[j] ==> NonOption(cfg, args[j])
    ensures forall x :: x in Keep(args, marks, false) ==> NonOption(cfg, x)
    ensures Keep(args, marks, false) == [] <==> forall j :: 0 <= j < |marks| ==> marks[j]
    decreases |marks|
  {
    hide NonOption;
    if marks != [] {
      SkippedAre(cfg, args[1..], marks[1..]);
      assert forall j :: 0 <= j < |marks| - 1 ==> marks[1..][j] == marks[j + 1];
      if forall j :: 0 <= j < |marks| ==> marks[j] {
        assert marks[0];
      }
    }
  }

  /** A run that gives up still leaves the partition if and only if nothing was skipped
      or nothing was used since the last skipped argument; `optind` is the first
      non-option if and only if nothing was skipped. */
  lemma InterruptedIsPartitioned(cfg: SteadyConfig, rest: seq<cstring>)
    ensures var marks := Marks(cfg, rest);
            var skipped := Keep(rest, marks, false);
            && (Interrupted(cfg, rest) == Partitioned(cfg, rest) <==> skipped == [] || Trailing(marks) == 0)
            && (1 + |marks| == 1 + |Keep(rest, marks, true)| <==> skipped == [])
  {
    hide Marks, Trailing, NonOption;
    var marks := Marks(cfg, rest);
    var c, s, t := Keep(rest, marks, true), Keep(rest, marks, false), Trailing(marks);
    TrailingArguments(rest, marks);
    KeepCounts(rest, marks);
    assert c[..|c| - t] + c[|c| - t..] == c;
    if s == [] {
      assert c[..|c| - t] + [] + c[|c| - t..] == c[..|c| - t] + c[|c| - t..];
    } else if t == 0 {
      assert c[..|c| - 0] + s + c[|c| - 0..] == c + s;
    } else {
      BlocksDiffer(cfg, rest);
    }
  }

  lemma {:induction false} KeepCounts(args: seq<cstring>, marks: seq<bool>)
    requires |marks| <= |args|
    ensures |Keep(args, marks, true)| + |Keep(args, marks, false)| == |marks|
  {
    if marks != [] {
      KeepCounts(args[1..], marks[1..]);
    }
  }

  /** Skipped and recently used arguments begin differently. */
  lemma BlocksDiffer(cfg: SteadyConfig, rest: seq<cstring>)
    requires Keep(rest, Marks(cfg, rest), false) != [] && Trailing(Marks(cfg, rest)) > 0
    ensures Interrupted(cfg, rest) != Partitioned(cfg, rest)
  {
    hide Marks, Trailing, NonOption, Keep;
    var marks := Marks(cfg, rest);
    var c, s, t := Keep(rest, marks, true), Keep(rest, marks, false), Trailing(marks);
    var n := |marks| - t;
    forall j | 0 <= j < |marks| && !marks[j] ensures NonOption(cfg, rest[j]) {
      MarksMean(cfg, rest, j);
    }
    SkippedAre(cfg, rest, marks);
    EndsInSame(marks);
    SameAt(t, true);
    TrailingArguments(rest, marks);
    assert marks[n] == Same(t, true)[0];
    MarksMean(cfg, rest, n);
    assert c[|c| - t..][0] == rest[n..|marks|][0];
    assert s[0] in s;
    var k := |c| - t;
    assert Interrupted(cfg, rest)[k] == s[0];
    assert Partitioned(cfg, rest)[k] == c[k];
  }
}
