/**
 A whole run of calls: every argument is used or skipped, and in the end the used
 ones come first, the skipped ones next, both in their original order.
 */
module ArgScannerRun {
  import opened Optional
  import opened ArgScanner

  /** Option tables of which no long option answers -1. */
  type SteadyConfig = cfg: Config | Steady(cfg) witness Config([], None, true)

  /** How many arguments the options from `place` on use up, the argument they stand in
      included; `None` if they run into a lone trailing '-', where the scan gives up. */
  function Span(cfg: SteadyConfig, rest: seq<cstring>, place: cstring): (r: Option<nat>)
    requires rest != [] && place != [] && |place| <= |rest[0]|
    requires |place| == |rest[0]| ==> DASH in Letters(cfg)
    ensures r.Some? ==> 0 < r.value <= |rest|
    decreases |place|
  {
    var s := ScanOption(cfg, rest, place);
    if s.used > 0 then Some(s.used)
    else if s.place == [] then None
    else Span(cfg, rest, s.place)
  }

  /** `k` times the same mark. */
  function Same(k: nat, b: bool): (r: seq<bool>)
    ensures |r| == k
  {
    if k == 0 then [] else [b] + Same(k - 1, b)
  }

  /** For each argument up to the end of the scan: whether it is used. */
  function Marks(cfg: SteadyConfig, rest: seq<cstring>): (r: seq<bool>)
    ensures |r| <= |rest|
    decreases |rest|
  {
    if rest == [] then []
    else if NonOption(cfg, rest[0]) then [false] + Marks(cfg, rest[1..])
    else if Terminator(rest[0]) then [true]
    else MarksFrom(cfg, rest, FirstPlace(rest[0]))
  }

  /** The same with the scan at `place` in the first argument. */
  function MarksFrom(cfg: SteadyConfig, rest: seq<cstring>, place: cstring): (r: seq<bool>)
    requires rest != [] && place != [] && |place| <= |rest[0]|
    requires |place| == |rest[0]| ==> DASH in Letters(cfg)
    ensures |r| <= |rest|
    decreases |rest|, 0
  {
    match Span(cfg, rest, place)
    case None => []
    case Some(k) => Same(k, true) + Marks(cfg, rest[k..])
  }

  /** The scan gives up at a lone trailing '-'. */
  predicate Stuck(cfg: SteadyConfig, rest: seq<cstring>)
    decreases |rest|
  {
    if rest == [] then false
    else if NonOption(cfg, rest[0]) then Stuck(cfg, rest[1..])
    else if Terminator(rest[0]) then false
    else StuckFrom(cfg, rest, FirstPlace(rest[0]))
  }

  predicate StuckFrom(cfg: SteadyConfig, rest: seq<cstring>, place: cstring)
    requires rest != [] && place != [] && |place| <= |rest[0]|
    requires |place| == |rest[0]| ==> DASH in Letters(cfg)
    decreases |rest|, 0
  {
    match Span(cfg, rest, place)
    case None => true
    case Some(k) => Stuck(cfg, rest[k..])
  }

  /** The arguments with the given mark, in order. */
  function Keep(args: seq<cstring>, marks: seq<bool>, b: bool): seq<cstring>
    requires |marks| <= |args|
  {
    if marks == [] then []
    else (if marks[0] == b then [args[0]] else []) + Keep(args[1..], marks[1..], b)
  }

  /** The used arguments, the skipped ones, and what the scan did not come to. */
  function Partitioned(cfg: SteadyConfig, rest: seq<cstring>): seq<cstring> {
    var marks := Marks(cfg, rest);
    Keep(rest, marks, true) + Keep(rest, marks, false) + rest[|marks|..]
  }

  // ---------------------------------------------------------------- what the partition is

  /** Nothing is lost and nothing is doubled. */
  lemma {:induction false} KeepsAll(args: seq<cstring>, marks: seq<bool>)
    requires |marks| <= |args|
    ensures multiset(Keep(args, marks, true)) + multiset(Keep(args, marks, false)) == multiset(args[..|marks|])
  {
    hide Keep;
    if marks == [] {
      KeepNothing(args);
      assert args[..0] == [];
    } else {
      KeepsAll(args[1..], marks[1..]);
      KeepFirst(args, marks);
      SumStep(args[0], Keep(args[1..], marks[1..], true), Keep(args[1..], marks[1..], false), args[1..][..|marks| - 1]);
      FrontOfRest(args, |marks|);
    }
  }

  lemma KeepNothing(args: seq<cstring>)
    ensures Keep(args, [], true) == [] && Keep(args, [], false) == []
  {
  }

  lemma SumStep(x: cstring, a: seq<cstring>, b: seq<cstring>, c: seq<cstring>)
    requires multiset(a) + multiset(b) == multiset(c)
    ensures multiset([x] + a) + multiset(b) == multiset([x] + c)
    ensures multiset(a) + multiset([x] + b) == multiset([x] + c)
  {
    ConsCounts(x, a);
    ConsCounts(x, b);
    ConsCounts(x, c);
  }

  lemma KeepFirst(args: seq<cstring>, marks: seq<bool>)
    requires marks != [] && |marks| <= |args|
    ensures Keep(args, marks, marks[0]) == [args[0]] + Keep(args[1..], marks[1..], marks[0])
    ensures Keep(args, marks, !marks[0]) == Keep(args[1..], marks[1..], !marks[0])
  {
  }

  lemma ConsCounts(x: cstring, s: seq<cstring>)
    ensures multiset([x] + s) == multiset{x} + multiset(s)
  {
  }

  lemma PartitionPermutes(cfg: SteadyConfig, rest: seq<cstring>)
    ensures multiset(Partitioned(cfg, rest)) == multiset(rest)
  {
    hide Marks;
    var marks := Marks(cfg, rest);
    KeepsAll(rest, marks);
    assert rest == rest[..|marks|] + rest[|marks|..];
  }

  /** Only without long options, and with '-' no option letter, the scan gives up. */
  lemma {:induction false} StuckNeedsPlainDash(cfg: SteadyConfig, rest: seq<cstring>)
    requires Sound(cfg) && Stuck(cfg, rest)
    ensures cfg.longs.None? && DASH !in Letters(cfg)
    decreases |rest|
  {
    hide ScanOption;
    if NonOption(cfg, rest[0]) {
      StuckNeedsPlainDash(cfg, rest[1..]);
    } else {
      var place := FirstPlace(rest[0]);
      match Span(cfg, rest, place) {
        case None => NoSpanNeedsPlainDash(cfg, rest, place);
        case Some(k) => StuckNeedsPlainDash(cfg, rest[k..]);
      }
    }
  }

  lemma {:induction false} NoSpanNeedsPlainDash(cfg: SteadyConfig, rest: seq<cstring>, place: cstring)
    requires rest != [] && place != [] && |place| <= |rest[0]|
    requires |place| == |rest[0]| ==> DASH in Letters(cfg)
    requires Sound(cfg) && Span(cfg, rest, place) == None
    ensures cfg.longs.None? && DASH !in Letters(cfg)
    decreases |place|
  {
    hide ScanOption;
    var s := ScanOption(cfg, rest, place);
    if s.place != [] {
      NoSpanNeedsPlainDash(cfg, rest, s.place);
    }
  }

  /** The characters still to scan in the first of the arguments. */
  function Left(rest: seq<cstring>, place: cstring): nat {
    if place != [] then |place| else if rest != [] then |rest[0]| else 0
  }

  /** An answer other than "no more options" uses up arguments or characters. */
  lemma CallProgress(cfg: SteadyConfig, rest: seq<cstring>, place: cstring)
    requires Sound(cfg) && (place != [] ==> rest != [] && |place| < |rest[0]|)
    requires CallOf(cfg, rest, place).Answer? && CallOf(cfg, rest, place).scanned.code != -1
    ensures var r := CallOf(cfg, rest, place);
            var after := rest[r.skip + r.scanned.used..];
            && (r.scanned.place != [] ==> after != [] && |r.scanned.place| < |after[0]|)
            && (|after| < |rest| || (|after| == |rest| && Left(after, r.scanned.place) < Left(rest, place)))
  {
    hide ScanOption, Sound;
    CallCases(cfg, rest, place);
  }

  // ---------------------------------------------------------------- one call and the marks

  /** The marks still to come when the scan stands at `place` in the first argument. */
  function Ahead(cfg: SteadyConfig, rest: seq<cstring>, place: cstring): (r: seq<bool>)
    requires place != [] ==> rest != [] && |place| < |rest[0]|
    ensures |r| <= |rest|
  {
    if place == [] then Marks(cfg, rest) else MarksFrom(cfg, rest, place)
  }

  predicate StuckAhead(cfg: SteadyConfig, rest: seq<cstring>, place: cstring)
    requires place != [] ==> rest != [] && |place| < |rest[0]|
  {
    if place == [] then Stuck(cfg, rest) else StuckFrom(cfg, rest, place)
  }

  lemma {:induction false} MarksOfSkips(cfg: SteadyConfig, rest: seq<cstring>)
    ensures var m := Skips(cfg, rest);
            && Marks(cfg, rest) == Same(m, false) + Marks(cfg, rest[m..])
            && (Stuck(cfg, rest) <==> Stuck(cfg, rest[m..]))
    decreases |rest|
  {
    hide MarksFrom, StuckFrom;
    var m := Skips(cfg, rest);
    if m == 0 {
      assert rest[0..] == rest;
    } else {
      MarksOfSkips(cfg, rest[1..]);
      assert rest[1..][m - 1..] == rest[m..];
    }
  }

  lemma KeepCons(args: seq<cstring>, marks: seq<bool>, c: bool)
    requires args != [] && |marks| < |args|
    ensures Keep(args, [c] + marks, true) == (if c then [args[0]] else []) + Keep(args[1..], marks, true)
    ensures Keep(args, [c] + marks, false) == (if c then [] else [args[0]]) + Keep(args[1..], marks, false)
  {
    assert ([c] + marks)[1..] == marks;
  }

  lemma {:induction false} KeepSame(args: seq<cstring>, k: nat, b: bool, marks: seq<bool>, c: bool)
    requires k + |marks| <= |args|
    ensures Keep(args, Same(k, b) + marks, c) == (if b == c then args[..k] else []) + Keep(args[k..], marks, c)
    decreases k
  {
    hide Keep;
    if k == 0 {
      assert Same(0, b) + marks == marks && args[0..] == args;
    } else {
      var more, kept := Same(k - 1, b) + marks, Keep(args[k..], marks, c);
      assert Same(k, b) + marks == [b] + more;
      KeepCons(args, more, b);
      KeepSame(args[1..], k - 1, b, marks, c);
      RestOfRest(args, 1, k - 1);
      if b == c {
        FrontOfRest(args, k);
        assert [args[0]] + (args[1..][..k - 1] + kept) == [args[0]] + args[1..][..k - 1] + kept;
      }
    }
  }

  lemma FrontOfRest(args: seq<cstring>, k: nat)
    requires 0 < k <= |args|
    ensures [args[0]] + args[1..][..k - 1] == args[..k]
  {
  }

  /** What the scan will have used and skipped, and what it leaves, from here on. */
  datatype Outlook = Outlook(used: seq<cstring>, skipped: seq<cstring>, tail: seq<cstring>, stuck: bool)

  function OutlookOf(rest: seq<cstring>, marks: seq<bool>, stuck: bool): Outlook
    requires |marks| <= |rest|
  {
    Outlook(Keep(rest, marks, true), Keep(rest, marks, false), rest[|marks|..], stuck)
  }

  function View(cfg: SteadyConfig, rest: seq<cstring>, place: cstring): Outlook
    requires place != [] ==> rest != [] && |place| < |rest[0]|
  {
    OutlookOf(rest, Ahead(cfg, rest, place), StuckAhead(cfg, rest, place))
  }

  /** `o` with some more arguments in front. */
  function Before(used: seq<cstring>, skipped: seq<cstring>, o: Outlook): Outlook {
    Outlook(used + o.used, skipped + o.skipped, o.tail, o.stuck)
  }

  lemma OutlookOfSame(rest: seq<cstring>, k: nat, b: bool, marks: seq<bool>, stuck: bool)
    requires k + |marks| <= |rest|
    ensures OutlookOf(rest, Same(k, b) + marks, stuck)
         == Before(if b then rest[..k] else [], if b then [] else rest[..k], OutlookOf(rest[k..], marks, stuck))
  {
    KeepSame(rest, k, b, marks, true);
    KeepSame(rest, k, b, marks, false);
    assert rest[k..][|marks|..] == rest[k + |marks|..];
  }

  /** One option: its arguments are used. */
  lemma OptionStep(cfg: SteadyConfig, rest: seq<cstring>, place: cstring)
    requires rest != [] && place != [] && |place| <= |rest[0]|
    requires |place| == |rest[0]| ==> DASH in Letters(cfg)
    ensures var s := ScanOption(cfg, rest, place);
            var o := OutlookOf(rest, MarksFrom(cfg, rest, place), StuckFrom(cfg, rest, place));
            if s.used == 0 && s.place == [] then o == Outlook([], [], rest, true)
            else o == Before(rest[..s.used], [], View(cfg, rest[s.used..], s.place))
  {
    hide ScanOption, Marks, Stuck;
    var s := ScanOption(cfg, rest, place);
    var o := OutlookOf(rest, MarksFrom(cfg, rest, place), StuckFrom(cfg, rest, place));
    if s.used > 0 {
      OutlookOfSame(rest, s.used, true, Marks(cfg, rest[s.used..]), Stuck(cfg, rest[s.used..]));
    } else if s.place != [] {
      assert rest[0..] == rest && rest[..0] == [];
      assert [] + o.used == o.used && [] + o.skipped == o.skipped;
    }
  }

  /** The non-options in front are skipped. */
  lemma SkipStep(cfg: SteadyConfig, rest: seq<cstring>)
    ensures var m := Skips(cfg, rest);
            View(cfg, rest, []) == Before([], rest[..m], View(cfg, rest[m..], []))
  {
    hide Marks, Stuck, Keep;
    var m := Skips(cfg, rest);
    MarksOfSkips(cfg, rest);
    OutlookOfSame(rest, m, false, Marks(cfg, rest[m..]), Stuck(cfg, rest[m..]));
  }

  lemma BeforeTwice(u1: seq<cstring>, s1: seq<cstring>, u2: seq<cstring>, s2: seq<cstring>, o: Outlook)
    ensures Before(u1, s1, Before(u2, s2, o)) == Before(u1 + u2, s1 + s2, o)
  {
    assert u1 + (u2 + o.used) == u1 + u2 + o.used;
    assert s1 + (s2 + o.skipped) == s1 + s2 + o.skipped;
  }

  /** The option behind `m` non-options. */
  lemma OpenStep(cfg: SteadyConfig, rest: seq<cstring>, m: nat)
    requires m == Skips(cfg, rest) < |rest| && !Terminator(rest[m])
    ensures Suffix(FirstPlace(rest[m]), rest[m]) && (|FirstPlace(rest[m])| == |rest[m]| ==> DASH in Letters(cfg))
    ensures var s := ScanOption(cfg, rest[m..], FirstPlace(rest[m]));
            if s.used == 0 && s.place == [] then View(cfg, rest, []) == Outlook([], rest[..m], rest[m..], true)
            else View(cfg, rest, []) == Before(rest[m..m + s.used], rest[..m], View(cfg, rest[m + s.used..], s.place))
  {
    hide ScanOption, MarksFrom, StuckFrom, FirstPlace, NonOption, Terminator, Skips, Before, View, OutlookOf;
    SkipStep(cfg, rest);
    assert rest[m..][0] == rest[m];
    ViewAtOption(cfg, rest[m..]);
    var first := FirstPlace(rest[m]);
    OptionStep(cfg, rest[m..], first);
    var s := ScanOption(cfg, rest[m..], first);
    BeforeFields([], rest[..m], View(cfg, rest[m..], []));
    assert rest[..m] + [] == rest[..m];
    if s.used > 0 || s.place != [] {
      assert rest[m..][s.used..] == rest[m + s.used..];
      assert rest[m..][..s.used] == rest[m..m + s.used];
      BeforeTwice([], rest[..m], rest[m..m + s.used], [], View(cfg, rest[m + s.used..], s.place));
      assert [] + rest[m..m + s.used] == rest[m..m + s.used] && rest[..m] + [] == rest[..m];
    }
  }

  lemma BeforeFields(used: seq<cstring>, skipped: seq<cstring>, o: Outlook)
    ensures Before(used, skipped, o) == Outlook(used + o.used, skipped + o.skipped, o.tail, o.stuck)
  {
  }

  /** One call that answers moves the outlook on by just what it filed. */
  lemma AnswerStep(cfg: SteadyConfig, rest: seq<cstring>, place: cstring)
    requires place != [] ==> rest != [] && |place| < |rest[0]|
    requires !AllArgs(cfg) && Permuting(cfg) && CallOf(cfg, rest, place).Answer?
    ensures var r := CallOf(cfg, rest, place);
            var s := r.scanned;
            if s.used == 0 && s.place == [] then
              View(cfg, rest, place) == Outlook([], rest[..r.skip], rest[r.skip..], true)
            else
              && (s.place != [] ==> |s.place| < |rest[r.skip]|)
              && View(cfg, rest, place)
                 == Before(rest[r.skip..r.skip + s.used], rest[..r.skip], View(cfg, rest[r.skip + s.used..], s.place))
  {
    hide ScanOption, View, Before, FirstPlace, NonOption, Terminator, Letters, AllArgs, Permuting, CallOf;
    CallCases(cfg, rest, place);
    if place != [] {
      InsideStep(cfg, rest, place);
    } else {
      var m := MoveOf(cfg, rest).skip;
      OpenStep(cfg, rest, m);
    }
  }

  /** The option at `place` in the first argument. */
  lemma InsideStep(cfg: SteadyConfig, rest: seq<cstring>, place: cstring)
    requires place != [] && rest != [] && |place| < |rest[0]|
    ensures var s := ScanOption(cfg, rest, place);
            if s.used == 0 && s.place == [] then View(cfg, rest, place) == Outlook([], rest[..0], rest[0..], true)
            else
              View(cfg, rest, place)
              == Before(rest[0..0 + s.used], rest[..0], View(cfg, rest[0 + s.used..], s.place))
  {
    hide ScanOption, Marks, MarksFrom, Stuck, StuckFrom, Keep;
    OptionStep(cfg, rest, place);
    assert rest[..0] == [] && rest[0..] == rest;
  }

  lemma ViewAtOption(cfg: SteadyConfig, rest: seq<cstring>)
    requires rest != [] && !NonOption(cfg, rest[0]) && !Terminator(rest[0])
    ensures var p := FirstPlace(rest[0]);
            && Suffix(p, rest[0]) && (|p| == |rest[0]| ==> DASH in Letters(cfg))
            && View(cfg, rest, []) == OutlookOf(rest, MarksFrom(cfg, rest, p), StuckFrom(cfg, rest, p))
  {
    MarksAtOption(cfg, rest);
  }

  lemma MarksAtOption(cfg: SteadyConfig, rest: seq<cstring>)
    requires rest != [] && !NonOption(cfg, rest[0]) && !Terminator(rest[0])
    ensures Suffix(FirstPlace(rest[0]), rest[0]) && (|FirstPlace(rest[0])| == |rest[0]| ==> DASH in Letters(cfg))
    ensures Marks(cfg, rest) == MarksFrom(cfg, rest, FirstPlace(rest[0]))
    ensures Stuck(cfg, rest) == StuckFrom(cfg, rest, FirstPlace(rest[0]))
  {
    NonOptionFacts(cfg, rest[0]);
  }

  /** The last call files all there is before the tail. */
  lemma FinishStep(cfg: SteadyConfig, rest: seq<cstring>)
    requires !AllArgs(cfg) && Permuting(cfg)
    ensures !CallOf(cfg, rest, []).Stopped?
    ensures var r := CallOf(cfg, rest, []);
            r.Finished? ==>
              View(cfg, rest, [])
              == Outlook(rest[r.skip..r.skip + r.dashes], rest[..r.skip], rest[r.skip + r.dashes..], false)
  {
    hide ScanOption, View, Skips, NonOption, Terminator, Before;
    var r := CallOf(cfg, rest, []);
    if r.Finished? {
      var m := r.skip;
      SkipStep(cfg, rest);
      if r.dashes == 1 {
        ViewAtDashes(cfg, rest[m..]);
        assert rest[m..][..1] == rest[m..m + 1] && rest[m..][1..] == rest[m + 1..];
      } else {
        assert rest[m..] == [] && rest[m..m + 0] == [];
        ViewOfNothing(cfg);
      }
      BeforeFields([], rest[..m], View(cfg, rest[m..], []));
      assert rest[..m] + [] == rest[..m] && [] + rest[m..m + r.dashes] == rest[m..m + r.dashes];
    }
  }

  /** At "--" that one argument is used and the scan is over. */
  lemma ViewAtDashes(cfg: SteadyConfig, rest: seq<cstring>)
    requires rest != [] && !NonOption(cfg, rest[0]) && Terminator(rest[0])
    ensures View(cfg, rest, []) == Outlook(rest[..1], [], rest[1..], false)
  {
    hide NonOption, Terminator, MarksFrom, StuckFrom;
    assert Marks(cfg, rest) == [true];
    assert Keep(rest, [true], true) == [rest[0]] + Keep(rest[1..], [], true);
    assert Keep(rest, [true], false) == [] + Keep(rest[1..], [], false);
    assert rest[..1] == [rest[0]];
  }

  lemma ViewOfNothing(cfg: SteadyConfig)
    ensures View(cfg, [], []) == Outlook([], [], [], false)
  {
  }

  // ---------------------------------------------------------------- the run

  /** What is answered when nothing ever moves. */
  function Answers(cfg: SteadyConfig, rest: seq<cstring>, place: cstring): seq<(int, Option<cstring>)>
    requires Sound(cfg) && (place != [] ==> rest != [] && |place| < |rest[0]|)
    decreases |rest|, Left(rest, place)
  {
    var r := CallOf(cfg, rest, place);
    if r.Answer? && r.scanned.code != -1 then
      CallProgress(cfg, rest, place);
      [(r.scanned.code, r.scanned.optarg)] + Answers(cfg, rest[r.skip + r.scanned.used..], r.scanned.place)
    else []
  }

  // ---------------------------------------------------------------- where a run gives up

  /** How many used arguments the marks end in. */
  function Trailing(marks: seq<bool>): (n: nat)
    ensures n <= |marks|
  {
    if marks == [] || !marks[|marks| - 1] then 0 else 1 + Trailing(marks[..|marks| - 1])
  }

  lemma SameEnds(k: nat, b: bool)
    requires k > 0
    ensures Same(k, b) == Same(k - 1, b) + [b]
  {
    if k > 1 {
      SameEnds(k - 1, b);
    }
  }

  lemma {:induction false} TrailingSame(marks: seq<bool>, k: nat, b: bool)
    ensures Trailing(marks + Same(k, b)) == if k == 0 then Trailing(marks) else if b then Trailing(marks) + k else 0
    decreases k
  {
    if k == 0 {
      assert marks + Same(0, b) == marks;
    } else {
      SameEnds(k, b);
      assert (marks + Same(k, b))[..|marks| + k - 1] == marks + Same(k - 1, b);
      TrailingSame(marks, k - 1, b);
    }
  }

  lemma {:induction false} KeepBoth(args: seq<cstring>, first: seq<bool>, second: seq<bool>, b: bool)
    requires |first| + |second| <= |args|
    ensures Keep(args, first + second, b) == Keep(args, first, b) + Keep(args[|first|..], second, b)
    decreases |first|
  {
    hide Keep;
    if first == [] {
      assert first + second == second && args[0..] == args;
      KeepNothing(args);
    } else {
      assert (first + second)[1..] == first[1..] + second;
      RestOfRest(args, 1, |first| - 1);
      KeepBoth(args[1..], first[1..], second, b);
      KeepUnfold(args, first + second, b);
      KeepUnfold(args, first, b);
      var head := if first[0] == b then [args[0]] else [];
      Associate(head, Keep(args[1..], first[1..], b), Keep(args[|first|..], second, b));
    }
  }

  lemma KeepUnfold(args: seq<cstring>, marks: seq<bool>, b: bool)
    requires marks != [] && |marks| <= |args|
    ensures Keep(args, marks, b) == (if marks[0] == b then [args[0]] else []) + Keep(args[1..], marks[1..], b)
  {
  }

  lemma Associate<T>(a: seq<T>, b: seq<T>, c: seq<T>)
    ensures a + (b + c) == a + b + c
  {
  }

  lemma {:induction false} EndsInSame(marks: seq<bool>)
    ensures marks == marks[..|marks| - Trailing(marks)] + Same(Trailing(marks), true)
    ensures Trailing(marks) < |marks| ==> !marks[|marks| - Trailing(marks) - 1]
    decreases |marks|
  {
    if Trailing(marks) > 0 {
      var front := marks[..|marks| - 1];
      EndsInSame(front);
      SameEnds(Trailing(marks), true);
    }
  }

  /** The last arguments used are the last arguments marked. */
  lemma TrailingArguments(args: seq<cstring>, marks: seq<bool>)
    requires |marks| <= |args|
    ensures var t, c := Trailing(marks), Keep(args, marks, true);
            t <= |c| && c[|c| - t..] == args[|marks| - t..|marks|]
  {
    hide Keep, Trailing, Same;
    var t := Trailing(marks);
    var n := |marks| - t;
    EndsInSame(marks);
    KeepBoth(args, marks[..n], Same(t, true), true);
    UsedAll(args[n..], t);
    PartOfRest(args, n, 0, t);
    TailOf(Keep(args, marks[..n], true), args[n..][0..0 + t]);
  }

  lemma UsedAll(args: seq<cstring>, t: nat)
    requires t <= |args|
    ensures Keep(args, Same(t, true), true) == args[0..0 + t]
  {
    hide Keep, Same;
    KeepSame(args, t, true, [], true);
    assert Same(t, true) + [] == Same(t, true);
    KeepNothing(args[t..]);
    assert args[..t] + [] == args[0..0 + t];
  }

  lemma TailOf<T>(a: seq<T>, b: seq<T>)
    ensures (a + b)[|a + b| - |b|..] == b
  {
  }

  /** The order a run leaves that gives up: the arguments used since the last skipped one
      still stand behind the skipped ones. */
  function Interrupted(cfg: SteadyConfig, rest: seq<cstring>): seq<cstring> {
    var marks := Marks(cfg, rest);
    var c, t := Keep(rest, marks, true), Trailing(marks);
    TrailingArguments(rest, marks);
    c[..|c| - t] + Keep(rest, marks, false) + c[|c| - t..] + rest[|marks|..]
  }

  // ---------------------------------------------------------------- the run

  ghost predicate AtPlace(t: Scanner) {
    && 1 <= t.optind <= |t.orig|
    && (t.place != [] ==> t.optind < |t.orig| && |t.place| < |t.orig[t.optind]|)
  }

  ghost predicate KeepsOutlook(cfg: SteadyConfig, t: Scanner)
    requires AtPlace(t)
  {
    View(cfg, t.orig[1..], []) == Before(t.consumed, t.skipped, View(cfg, t.orig[t.optind..], t.place))
  }

  ghost predicate KeepsMarks(cfg: SteadyConfig, t: Scanner, marks: seq<bool>)
    requires AtPlace(t)
  {
    && |marks| == t.optind - 1 && Marks(cfg, t.orig[1..]) == marks + Ahead(cfg, t.orig[t.optind..], t.place)
    && (t.skipped != [] ==> Recent(t) == Trailing(marks))
  }

  ghost predicate KeepsAnswers(cfg: SteadyConfig, t: Scanner, answers: seq<(int, Option<cstring>)>)
    requires AtPlace(t) && Sound(cfg)
  {
    Answers(cfg, t.orig[1..], []) == answers + Answers(cfg, t.orig[t.optind..], t.place)
  }

  /** Midway in a run: `marks` are those of the arguments before `optind`. */
  ghost predicate Running(cfg: SteadyConfig, t: Scanner, marks: seq<bool>, answers: seq<(int, Option<cstring>)>)
    requires Sound(cfg)
  {
    AtPlace(t) && KeepsOutlook(cfg, t) && KeepsMarks(cfg, t, marks) && KeepsAnswers(cfg, t, answers)
  }

  /** What a run comes to. */
  ghost predicate RunTo(cfg: SteadyConfig, orig: seq<cstring>, argv: seq<cstring>, optind: nat)
    requires orig != []
  {
    var rest := orig[1..];
    var marks := Marks(cfg, rest);
    if Stuck(cfg, rest) then
      argv == orig[..1] + Interrupted(cfg, rest) && optind == 1 + |marks|
    else
      argv == orig[..1] + Partitioned(cfg, rest) && optind == 1 + |Keep(rest, marks, true)|
  }

  /** Calls until the answer is -1.  The answers are those of the arguments as they
      were.  Unless the scan gives up the arguments end up partitioned, with `optind` at
      the first non-option; otherwise the last rotation is still due, and `optind` is
      where the scan gave up. */
  method Run(g: Getopt, cfg: SteadyConfig) returns (answers: seq<(int, Option<cstring>)>)
    requires g.Valid() && g.optind == 1 && g.place == [] && g.consumed == [] && g.skipped == []
    requires Sound(cfg) && Permuting(cfg) && !AllArgs(cfg)
    modifies g, g.nargv
    ensures old(g.orig) != []
    ensures answers == Answers(cfg, old(g.orig[1..]), [])
    ensures RunTo(cfg, old(g.orig), g.nargv[..], g.optind)
  {
    hide AllArgs, Permuting, Sound, Ready, Answers, Running, Called, RunTo;
    ghost var orig := g.orig;
    answers := [];
    ghost var marks: seq<bool> := [];
    RunStarts(cfg, g.State());
    while true
      invariant Ready(g.State()) && g.orig == orig && Running(cfg, g.State(), marks, answers)
      decreases |orig| - g.optind, if g.optind <= |orig| then Left(orig[g.optind..], g.place) else 0
    {
      ghost var s := g.State();
      var code, index := g.GetoptInternal(cfg);
      if code == -1 {
        RunEnds(cfg, s, g.State(), marks, answers, code, index);
        return;
      }
      marks := RunTurns(cfg, s, g.State(), marks, answers, code, index);
      answers := answers + [(code, g.optarg)];
    }
  }

  lemma RunStarts(cfg: SteadyConfig, t: Scanner)
    requires Sound(cfg) && Ready(t) && t.optind == 1 && t.place == [] && t.consumed == [] && t.skipped == []
    ensures t.orig != [] && Running(cfg, t, [], [])
  {
    hide Ready, View, Answers, Marks, Sound, Before, Trailing;
    PlaceIsReady(t);
    var rest := t.orig[1..];
    BeforeNothing(View(cfg, rest, []));
    assert [] + Marks(cfg, rest) == Marks(cfg, rest) && [] + Answers(cfg, rest, []) == Answers(cfg, rest, []);
  }

  /** The marks a call that answers adds. */
  lemma MarksTurn(cfg: SteadyConfig, rest: seq<cstring>, place: cstring)
    requires place != [] ==> rest != [] && |place| < |rest[0]|
    requires !AllArgs(cfg) && Permuting(cfg) && CallOf(cfg, rest, place).Answer?
    ensures var r := CallOf(cfg, rest, place);
            var s, after := r.scanned, rest[r.skip + r.scanned.used..];
            && (s.place != [] ==> after != [] && |s.place| < |after[0]|)
            && Ahead(cfg, rest, place)
               == Same(r.skip, false) + if s.used == 0 && s.place == [] then []
                 else Same(s.used, true) + Ahead(cfg, after, s.place)
  {
    hide ScanOption, FirstPlace, NonOption, Terminator, Letters, AllArgs, Permuting, CallOf, Marks, Stuck, Skips;
    hide MarksFrom, Same;
    CallCases(cfg, rest, place);
    if place != [] {
      MarksOfOption(cfg, rest, place);
      SameOfNone(false);
      assert [] + Ahead(cfg, rest, place) == Ahead(cfg, rest, place);
    } else {
      MarksTurnAtStart(cfg, rest);
    }
  }

  lemma SameOfNone(b: bool)
    ensures Same(0, b) == []
  {
  }

  lemma MarksTurnAtStart(cfg: SteadyConfig, rest: seq<cstring>)
    requires !AllArgs(cfg) && Permuting(cfg) && MoveOf(cfg, rest).Open?
    ensures var m := MoveOf(cfg, rest).skip;
            var s := ScanOption(cfg, rest[m..], FirstPlace(rest[m]));
            Marks(cfg, rest) == Same(m, false) + if s.used == 0 && s.place == [] then []
              else Same(s.used, true) + Ahead(cfg, rest[m + s.used..], s.place)
  {
    hide ScanOption, FirstPlace, NonOption, Terminator, Letters, Marks, MarksFrom, Ahead, Same, Skips;
    var m := MoveOf(cfg, rest).skip;
    MarksOfSkips(cfg, rest);
    MarksAtOption(cfg, rest[m..]);
    MarksOfOption(cfg, rest[m..], FirstPlace(rest[m]));
    RestOfRest(rest, m, ScanOption(cfg, rest[m..], FirstPlace(rest[m])).used);
  }

  lemma MarksOfOption(cfg: SteadyConfig, rest: seq<cstring>, place: cstring)
    requires rest != [] && place != [] && |place| <= |rest[0]|
    requires |place| == |rest[0]| ==> DASH in Letters(cfg)
    ensures var s := ScanOption(cfg, rest, place);
            MarksFrom(cfg, rest, place)
            == if s.used == 0 && s.place == [] then [] else Same(s.used, true) + Ahead(cfg, rest[s.used..], s.place)
  {
    hide ScanOption, Marks;
    var s := ScanOption(cfg, rest, place);
    if s.used == 0 && s.place != [] {
      assert rest[0..] == rest;
      assert Same(0, true) + MarksFrom(cfg, rest, s.place) == MarksFrom(cfg, rest, s.place);
    }
  }

  lemma ReadyIsInside(t: Scanner)
    ensures Ready(t) <==> Usable(t) && t.standing.Inside?
  {
  }

  /** What one call that answers did, in terms of the arguments ahead. */
  lemma AnswerFacts(cfg: SteadyConfig, s: Scanner, t: Scanner, code: int, index: Option<nat>) returns (m: nat,
        used: nat)
    requires Ready(s) && Called(cfg, s, t, code, index) && AtPlace(s)
        && CallOf(cfg, s.orig[s.optind..], s.place).Answer?
    ensures var now, r := s.orig[s.optind..], CallOf(cfg, s.orig[s.optind..], s.place);
            && m == r.skip && used == r.scanned.used && m + used <= |now|
            && t.orig == s.orig && t.optind == s.optind + m + used
            && t.orig[t.optind..] == now[m + used..]
            && t.skipped == s.skipped + now[..m] && t.consumed == s.consumed + now[m..m + used]
            && t.place == r.scanned.place && t.optarg == r.scanned.optarg && code == r.scanned.code
            && FiledAs(s, t, m, used)
            && (used > 0 || t.place != [] ==> Ready(t))
  {
    hide CallOf, Laid, Ready, Adrift, Recent;
    ReadyIsInside(s);
    ReadyIsInside(t);
    var now := s.orig[s.optind..];
    var r := CallOf(cfg, now, s.place);
    m, used := r.skip, r.scanned.used;
    RestOfRest(s.orig, s.optind, m + used);
    PartOfRest(s.orig, s.optind, 0, m);
    PartOfRest(s.orig, s.optind, m, used);
    assert now[0..0 + m] == now[..m];
  }

  lemma OutlookTurns(cfg: SteadyConfig, s: Scanner, t: Scanner, now: seq<cstring>, m: nat, used: nat)
    requires Sound(cfg) && Permuting(cfg) && !AllArgs(cfg) && AtPlace(s) && AtPlace(t) && KeepsOutlook(cfg, s)
    requires now == s.orig[s.optind..] && CallOf(cfg, now, s.place).Answer?
        && CallOf(cfg, now, s.place).scanned.code != -1
    requires m == CallOf(cfg, now, s.place).skip && used == CallOf(cfg, now, s.place).scanned.used
    requires t.orig == s.orig && t.orig[t.optind..] == now[m + used..]
        && t.place == CallOf(cfg, now, s.place).scanned.place
    requires t.skipped == s.skipped + now[..m] && t.consumed == s.consumed + now[m..m + used]
    ensures KeepsOutlook(cfg, t)
  {
    hide Sound, Permuting, AllArgs, View, Before, Answers, CallOf, Left;
    TurnOfRun(cfg, now, s.place, s.consumed, s.skipped);
  }

  lemma AnswersTurn(cfg: SteadyConfig, s: Scanner, t: Scanner, now: seq<cstring>, answers: seq<(int, Option<cstring>)>)
    requires Sound(cfg) && Permuting(cfg) && !AllArgs(cfg) && AtPlace(s) && AtPlace(t) && KeepsAnswers(cfg, s, answers)
    requires now == s.orig[s.optind..] && CallOf(cfg, now, s.place).Answer?
        && CallOf(cfg, now, s.place).scanned.code != -1
    requires var r := CallOf(cfg, now, s.place);
             t.orig == s.orig && t.orig[t.optind..] == now[r.skip + r.scanned.used..] && t.place == r.scanned.place
             && t.optarg == r.scanned.optarg
    ensures KeepsAnswers(cfg, t, answers + [(CallOf(cfg, now, s.place).scanned.code, t.optarg)])
  {
    hide Sound, Permuting, AllArgs, View, Before, Answers, CallOf, Left;
    TurnOfRun(cfg, now, s.place, s.consumed, s.skipped);
    var r, rest := CallOf(cfg, now, s.place), Answers(cfg, t.orig[t.optind..], t.place);
    assert answers + ([(r.scanned.code, t.optarg)] + rest) == answers + [(r.scanned.code, t.optarg)] + rest;
  }

  lemma MarksTurnOn(cfg: SteadyConfig, s: Scanner, t: Scanner, now: seq<cstring>, m: nat, used: nat, marks: seq<bool>)
    requires Permuting(cfg) && !AllArgs(cfg) && Ready(s) && AtPlace(s) && AtPlace(t) && KeepsMarks(cfg, s, marks)
    requires now == s.orig[s.optind..] && CallOf(cfg, now, s.place).Answer? && m + used <= |now|
    requires m == CallOf(cfg, now, s.place).skip && used == CallOf(cfg, now, s.place).scanned.used
    requires used > 0 || t.place != []
    requires t.orig == s.orig && t.orig[t.optind..] == now[m + used..]
        && t.place == CallOf(cfg, now, s.place).scanned.place
    requires FiledAs(s, t, m, used)
    ensures KeepsMarks(cfg, t, marks + Same(m, false) + Same(used, true))
  {
    hide Permuting, AllArgs, Ready, Marks, CallOf, Laid, Ahead, Trailing, Same;
    MarksTurn(cfg, now, s.place);
    FourMarks(marks, Same(m, false), Same(used, true), Ahead(cfg, t.orig[t.optind..], t.place));
    RecentMarks(s, t, m, used, marks);
  }

  lemma FourMarks(a: seq<bool>, b: seq<bool>, c: seq<bool>, d: seq<bool>)
    ensures a + (b + (c + d)) == a + b + c + d
  {
  }

  lemma RecentMarks(s: Scanner, t: Scanner, m: nat, used: nat, marks: seq<bool>)
    requires Ready(s) && FiledAs(s, t, m, used) && (s.skipped != [] ==> Recent(s) == Trailing(marks))
    ensures t.skipped != [] ==> Recent(t) == Trailing(marks + Same(m, false) + Same(used, true))
  {
    hide Ready, Laid, FiledAs, Trailing, Same, Recent;
    TrailingSame(marks, m, false);
    TrailingSame(marks + Same(m, false), used, true);
    RecentTurn(s, t, m, used);
  }

  lemma RunTurns(
    cfg: SteadyConfig, s: Scanner, t: Scanner, marks: seq<bool>, answers: seq<(int, Option<cstring>)>, code: int,
    index: Option<nat>)
    returns (marks': seq<bool>)
    requires Sound(cfg) && Permuting(cfg) && !AllArgs(cfg) && code != -1
    requires Ready(s) && Running(cfg, s, marks, answers) && Called(cfg, s, t, code, index)
    ensures Ready(t) && t.orig == s.orig && Running(cfg, t, marks', answers + [(code, t.optarg)])
    ensures s.optind <= t.optind <= |t.orig|
    ensures t.optind == s.optind ==> Left(t.orig[t.optind..], t.place) < Left(s.orig[s.optind..], s.place)
  {
    hide Sound, Permuting, AllArgs, Ready, View, Before, Answers, CallOf, Left, FiledAs, KeepsOutlook, KeepsMarks,
      KeepsAnswers, Same;
    var now := s.orig[s.optind..];
    NoStop(cfg, now, s.place);
    CalledAnswers(cfg, s, t, code, index);
    var m, used := AnswerFacts(cfg, s, t, code, index);
    TurnOfRun(cfg, now, s.place, s.consumed, s.skipped);
    PlaceIsReady(t);
    OutlookTurns(cfg, s, t, now, m, used);
    MarksTurnOn(cfg, s, t, now, m, used, marks);
    AnswersTurn(cfg, s, t, now, answers);
    marks' := marks + Same(m, false) + Same(used, true);
  }

  /** Only an answer has a code other than -1. */
  lemma CalledAnswers(cfg: SteadyConfig, s: Scanner, t: Scanner, code: int, index: Option<nat>)
    requires Ready(s) && Called(cfg, s, t, code, index) && code != -1 && AtPlace(s)
    ensures CallOf(cfg, s.orig[s.optind..], s.place).Answer?
  {
    hide CallOf, Ready;
    ReadyIsInside(s);
  }

  /** A non-option is the last skipped just when nothing was used since. */
  lemma RecentTurn(s: Scanner, t: Scanner, m: nat, used: nat)
    requires Ready(s) && FiledAs(s, t, m, used)
    ensures t.skipped != [] && m == 0 ==> s.skipped != [] && Recent(t) == Recent(s) + used
    ensures m > 0 ==> Recent(t) == used
  {
    LaidCounts(s.argv, s.orig, s.optind, s.ns, s.ne, s.consumed, s.skipped);
    hide Laid;
    assert s.orig[s.optind..s.optind + 0] == [];
  }

  lemma PlaceIsReady(t: Scanner)
    requires Ready(t)
    ensures 1 <= t.optind <= |t.orig| == |t.argv|
    ensures t.place != [] ==> t.optind < |t.orig| && |t.place| < |t.orig[t.optind]|
  {
    LaidRest(t.argv, t.orig, t.optind, t.ns, t.ne, t.consumed, t.skipped);
  }

  /** With permutation no call stops at a non-option, and an answer other than -1 comes
      from an option. */
  lemma NoStop(cfg: SteadyConfig, now: seq<cstring>, place: cstring)
    requires Permuting(cfg) && !AllArgs(cfg) && (place != [] ==> now != [] && |place| < |now[0]|)
    ensures !CallOf(cfg, now, place).Stopped?
  {
    hide ScanOption;
    CallCases(cfg, now, place);
    FinishStep(cfg, now);
  }

  lemma RunEnds(
    cfg: SteadyConfig, s: Scanner, t: Scanner, marks: seq<bool>, answers: seq<(int, Option<cstring>)>, code: int,
    index: Option<nat>)
    requires Sound(cfg) && Permuting(cfg) && !AllArgs(cfg) && code == -1
    requires Ready(s) && Running(cfg, s, marks, answers) && Called(cfg, s, t, code, index)
    ensures s.orig != [] && answers == Answers(cfg, s.orig[1..], []) && RunTo(cfg, s.orig, t.argv, t.optind)
  {
    hide Sound, Permuting, AllArgs, Ready, View, Before, Answers, Marks, CallOf, Laid, Ahead, Trailing, RunTo, Sorted;
    ReadyIsInside(s);
    var now := s.orig[s.optind..];
    EndOfRun(cfg, s.orig, s.optind, s.place, s.consumed, s.skipped);
    assert answers + [] == answers;
    if CallOf(cfg, now, s.place).Finished? {
      RunFinishes(cfg, s, t, marks, answers, code, index);
    } else {
      RunSticks(cfg, s, t, marks, answers, code, index);
    }
  }

  lemma RunFinishes(
    cfg: SteadyConfig, s: Scanner, t: Scanner, marks: seq<bool>, answers: seq<(int, Option<cstring>)>, code: int,
    index: Option<nat>)
    requires Sound(cfg) && Permuting(cfg) && !AllArgs(cfg)
    requires Ready(s) && Running(cfg, s, marks, answers) && Called(cfg, s, t, code, index)
    requires CallOf(cfg, s.orig[s.optind..], s.place).Finished?
    ensures RunTo(cfg, s.orig, t.argv, t.optind)
  {
    hide Sound, Permuting, AllArgs, Ready, View, Answers, Marks, CallOf, Laid, Ahead, Trailing, Sorted, Keep, Stuck,
      Partitioned, Interrupted;
    ReadyIsInside(s);
    var now := s.orig[s.optind..];
    var r := CallOf(cfg, now, s.place);
    EndOfRun(cfg, s.orig, s.optind, s.place, s.consumed, s.skipped);
    PartitionedIsView(cfg, s.orig[..1], s.orig[1..]);
    PartOfRest(s.orig, s.optind, 0, r.skip);
    PartOfRest(s.orig, s.optind, r.skip, r.dashes);
    assert now[0..0 + r.skip] == now[..r.skip];
  }

  lemma RunSticks(
    cfg: SteadyConfig, s: Scanner, t: Scanner, marks: seq<bool>, answers: seq<(int, Option<cstring>)>, code: int,
    index: Option<nat>)
    requires Sound(cfg) && Permuting(cfg) && !AllArgs(cfg) && code == -1
    requires Ready(s) && Running(cfg, s, marks, answers) && Called(cfg, s, t, code, index)
    requires CallOf(cfg, s.orig[s.optind..], s.place).Answer?
    ensures RunTo(cfg, s.orig, t.argv, t.optind)
  {
    hide Sound, Permuting, AllArgs, Ready, View, CallOf, Laid, Ahead, Trailing, Keep, Stuck, Marks, Partitioned,
      Interrupted;
    hide KeepsAnswers, Same;
    var rest, now := s.orig[1..], s.orig[s.optind..];
    var m, used := AnswerFacts(cfg, s, t, code, index);
    AnswerUses(cfg, now, s.place);
    AnswerStep(cfg, now, s.place);
    PartitionedIsView(cfg, s.orig[..1], rest);
    assert now[m..m + 0] == [] && s.consumed + [] == s.consumed;
    FinalMarks(cfg, s, t, now, m, marks);
    StuckOrder(cfg, t, rest, marks + Same(m, false));
  }

  lemma FinalMarks(cfg: SteadyConfig, s: Scanner, t: Scanner, now: seq<cstring>, m: nat, marks: seq<bool>)
    requires Permuting(cfg) && !AllArgs(cfg) && Ready(s) && AtPlace(s) && KeepsMarks(cfg, s, marks)
    requires now == s.orig[s.optind..] && CallOf(cfg, now, s.place).Answer? && m == CallOf(cfg, now, s.place).skip
    requires CallOf(cfg, now, s.place).scanned.used == 0 && CallOf(cfg, now, s.place).scanned.place == []
    requires FiledAs(s, t, m, 0)
    ensures Marks(cfg, s.orig[1..]) == marks + Same(m, false) && t.optind == 1 + |marks| + m
    ensures t.skipped != [] ==> Recent(t) == Trailing(marks + Same(m, false))
  {
    hide Permuting, AllArgs, Ready, Marks, CallOf, Laid, Ahead, Trailing, Same;
    MarksTurn(cfg, now, s.place);
    assert Same(m, false) + [] == Same(m, false);
    TrailingSame(marks, m, false);
    RecentTurn(s, t, m, 0);
  }

  lemma StuckOrder(cfg: SteadyConfig, t: Scanner, rest: seq<cstring>, marks: seq<bool>)
    requires InOrder(t) && t.orig != [] && rest == t.orig[1..] && marks == Marks(cfg, rest) && t.optind == 1 + |marks|
    requires t.consumed == Keep(rest, marks, true) && t.skipped == Keep(rest, marks, false)
    requires t.skipped != [] ==> Recent(t) == Trailing(marks)
    ensures t.argv == t.orig[..1] + Interrupted(cfg, rest)
  {
    hide Laid, Marks, Keep, Trailing;
    var n := Trailing(marks);
    TrailingArguments(rest, marks);
    InterruptedOrder(t, n);
    RestOfRest(t.orig, 1, |marks|);
    Reassociated(t.orig[..1], t.consumed[..|t.consumed| - n], t.skipped, t.consumed[|t.consumed| - n..],
      t.orig[t.optind..]);
  }

  lemma Reassociated<T>(h: seq<T>, a: seq<T>, b: seq<T>, c: seq<T>, d: seq<T>)
    ensures h + a + b + c + d == h + (a + b + c + d)
  {
  }

  /** The layout, by how many arguments were used since the last skipped one. */
  lemma InterruptedOrder(t: Scanner, n: nat)
    requires InOrder(t) && n <= |t.consumed| && (t.skipped != [] ==> Recent(t) == n)
    ensures 1 <= t.optind <= |t.orig|
    ensures t.argv == t.orig[..1] + t.consumed[..|t.consumed| - n] + t.skipped + t.consumed[|t.consumed| - n..]
        + t.orig[t.optind..]
  {
    var c := t.consumed;
    if t.skipped == [] {
      assert t.orig[..1] + c[..|c| - n] + [] + c[|c| - n..] == t.orig[..1] + (c[..|c| - n] + c[|c| - n..]);
      assert c[..|c| - n] + c[|c| - n..] == c;
      UnrotatedOrSplit(t);
    }
  }

  lemma UnrotatedOrSplit(t: Scanner)
    requires InOrder(t) && t.skipped == []
    ensures t.argv == t.orig[..1] + t.consumed + t.orig[t.optind..]
  {
    var c, lo := t.consumed, if t.ns == -1 then t.optind else t.ns;
    assert c[..lo - 1] + [] + c[lo - 1..] == c;
    assert t.orig[..1] + c[..lo - 1] + [] + c[lo - 1..] == t.orig[..1] + (c[..lo - 1] + [] + c[lo - 1..]);
  }

  lemma PartitionedIsView(cfg: SteadyConfig, head: seq<cstring>, rest: seq<cstring>)
    ensures var o := View(cfg, rest, []);
            && o.stuck == Stuck(cfg, rest) && o.used == Keep(rest, Marks(cfg, rest), true)
            && o.skipped == Keep(rest, Marks(cfg, rest), false) && o.tail == rest[|Marks(cfg, rest)|..]
            && head + Partitioned(cfg, rest) == head + o.used + o.skipped + o.tail
  {
    hide Marks, Stuck, Keep;
    var o := View(cfg, rest, []);
    assert head + (o.used + o.skipped + o.tail) == head + o.used + o.skipped + o.tail;
  }

  lemma BeforeNothing(o: Outlook)
    ensures Before([], [], o) == o
  {
    assert [] + o.used == o.used && [] + o.skipped == o.skipped;
  }

  /** A call that answers leaves the whole outlook as it was. */
  lemma TurnOfRun(cfg: SteadyConfig, now: seq<cstring>, place: cstring, consumed: seq<cstring>, skipped: seq<cstring>)
    requires Sound(cfg) && !AllArgs(cfg) && Permuting(cfg) && (place != [] ==> now != [] && |place| < |now[0]|)
    requires CallOf(cfg, now, place).Answer? && CallOf(cfg, now, place).scanned.code != -1
    ensures var r := CallOf(cfg, now, place);
            var s, after := r.scanned, now[r.skip + r.scanned.used..];
            && (s.place != [] ==> after != [] && |s.place| < |after[0]|)
            && (s.used > 0 || s.place != [])
            && (|after| < |now| || (|after| == |now| && Left(after, s.place) < Left(now, place)))
            && Before(consumed, skipped, View(cfg, now, place))
               == Before(consumed + now[r.skip..r.skip + s.used], skipped + now[..r.skip], View(cfg, after, s.place))
            && Answers(cfg, now, place) == [(s.code, s.optarg)] + Answers(cfg, after, s.place)
  {
    hide CallOf, View, Before, AllArgs, Permuting, Sound, Answers;
    var r := CallOf(cfg, now, place);
    CallProgress(cfg, now, place);
    AnswersStep(cfg, now, place);
    AnswerUses(cfg, now, place);
    AnswerStep(cfg, now, place);
    BeforeTwice(consumed, skipped, now[r.skip..r.skip + r.scanned.used], now[..r.skip],
                View(cfg, now[r.skip + r.scanned.used..], r.scanned.place));
  }

  lemma AnswersStep(cfg: SteadyConfig, now: seq<cstring>, place: cstring)
    requires Sound(cfg) && (place != [] ==> now != [] && |place| < |now[0]|)
    requires CallOf(cfg, now, place).Answer? && CallOf(cfg, now, place).scanned.code != -1
    ensures var r := CallOf(cfg, now, place);
            var s, after := r.scanned, now[r.skip + r.scanned.used..];
            && (s.place != [] ==> after != [] && |s.place| < |after[0]|)
            && Answers(cfg, now, place) == [(s.code, s.optarg)] + Answers(cfg, after, s.place)
  {
    hide CallOf, Sound;
    CallProgress(cfg, now, place);
  }

  /** Only the answer -1 neither uses an argument nor stays inside one. */
  lemma AnswerUses(cfg: SteadyConfig, now: seq<cstring>, place: cstring)
    requires Sound(cfg) && (place != [] ==> now != [] && |place| < |now[0]|)
    requires CallOf(cfg, now, place).Answer?
    ensures var s := CallOf(cfg, now, place).scanned;
            s.code == -1 <==> s.used == 0 && s.place == []
  {
    hide ScanOption, Sound;
    CallCases(cfg, now, place);
  }

  /** A call that ends the run leaves the arguments as the outlook had them. */
  lemma EndOfRun(cfg: SteadyConfig, orig: seq<cstring>, at: nat, place: cstring, consumed: seq<cstring>,
        skipped: seq<cstring>)
    requires Sound(cfg) && !AllArgs(cfg) && Permuting(cfg) && 1 <= at <= |orig|
    requires place != [] ==> at < |orig| && |place| < |orig[at]|
    requires CallOf(cfg, orig[at..], place).Answer? ==> CallOf(cfg, orig[at..], place).scanned.code == -1
    ensures var now := orig[at..];
            var r, o := CallOf(cfg, now, place), Before(consumed, skipped, View(cfg, now, place));
            && Answers(cfg, now, place) == []
            && !r.Stopped?
            && (r.Answer? ==> o.stuck)
            && (r.Finished? ==>
                  && !o.stuck
                  && Sorted(orig, at + r.skip + r.dashes,
                       consumed + now[r.skip..r.skip + r.dashes], skipped + now[..r.skip])
                     == orig[..1] + o.used + o.skipped + o.tail
                  && |o.used| == |consumed| + r.dashes)
  {
    hide CallOf, View, AllArgs, Permuting, Sound;
    var now := orig[at..];
    var r := CallOf(cfg, now, place);
    CallCases(cfg, now, place);
    if r.Answer? {
      AnswerUses(cfg, now, place);
      AnswerStep(cfg, now, place);
    } else {
      FinishStep(cfg, now);
      assert now[r.skip + r.dashes..] == orig[at + r.skip + r.dashes..];
    }
  }
}
