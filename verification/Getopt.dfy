/**
 The argument scanner: one call returns one option, non-options move behind the
 options, and the scanner keeps its place between calls in a handful of variables.
 Warnings, `optreset`, POSIXLY_CORRECT and getopt_long_only are not modelled.
 */
module ArgScanner {
  import opened Optional
  import Rotation

  // ---------------------------------------------------------------- strings and options

  /** A C string without its terminator. */
  type cchar = x: int | 0 < x < 256 witness 1
  type cstring = seq<cchar>

  const DASH: cchar := 45
  const COLON: cchar := 58
  const SEMICOLON: cchar := 59
  const EQUALS: cchar := 61
  const PLUS: cchar := 43
  const UPPER_W: cchar := 87
  const BADCH: int := 63
  const INORDER: int := 1

  datatype HasArg = NoArgument | RequiredArgument | OptionalArgument
  /** `flag` names the variable a long option stores its value in, if any. */
  datatype LongOption = LongOption(name: cstring, hasArg: HasArg, flag: Option<int>, val: int)
  datatype Config = Config(options: cstring, longs: Option<seq<LongOption>>, permute: bool)

  /** `char` is signed. */
  function AsInt(c: cchar): int {
    if c < 128 then c else c - 256
  }

  /** The offset of `c`, or the length. */
  function IndexOf(s: cstring, c: cchar): (k: nat)
    ensures k <= |s| && (k < |s| ==> s[k] == c) && forall i :: 0 <= i < k ==> s[i] != c
  {
    if s == [] || s[0] == c then 0 else 1 + IndexOf(s[1..], c)
  }

  /** The character at offset `k`, unless that is the terminator or beyond. */
  predicate Has(s: cstring, k: nat, c: cchar) {
    k < |s| && s[k] == c
  }

  predicate AllArgs(cfg: Config) {
    Has(cfg.options, 0, DASH)
  }

  predicate Permuting(cfg: Config) {
    cfg.permute && !Has(cfg.options, 0, PLUS)
  }

  function Letters(cfg: Config): (r: cstring)
    ensures forall c :: c in r ==> c in cfg.options
  {
    if Has(cfg.options, 0, PLUS) || Has(cfg.options, 0, DASH) then cfg.options[1..] else cfg.options
  }

  function BadArg(cfg: Config): int {
    if Has(Letters(cfg), 0, COLON) then COLON else BADCH
  }

  predicate NonOption(cfg: Config, arg: cstring) {
    arg == [] || arg[0] != DASH || (|arg| == 1 && DASH !in Letters(cfg))
  }

  predicate Terminator(arg: cstring) {
    arg == [DASH, DASH]
  }

  /** Where the scan of an option argument begins. */
  function FirstPlace(arg: cstring): cstring
    requires arg != []
  {
    if |arg| == 1 then arg else arg[1..]
  }

  /** `place` is what is left of `arg` from some character on. */
  predicate Suffix(place: cstring, arg: cstring) {
    place != [] && |place| <= |arg| && place == arg[|arg| - |place|..]
  }

  // ---------------------------------------------------------------- long options

  predicate Abbreviates(name: cstring, o: LongOption) {
    |name| <= |o.name| && o.name[..|name|] == name
  }

  predicate Identical(x: LongOption, y: LongOption) {
    x.hasArg == y.hasArg && x.flag == y.flag && x.val == y.val
  }

  /** What a name stands for. */
  datatype Match = NoMatch | Ambiguous | Matched(index: nat)

  predicate FirstExact(longs: seq<LongOption>, name: cstring, m: nat) {
    && m < |longs| && longs[m].name == name
    && forall k :: 0 <= k < m ==> longs[k].name != name
  }

  predicate FirstAbbreviated(longs: seq<LongOption>, name: cstring, m: nat) {
    && m < |longs| && Abbreviates(name, longs[m])
    && forall k :: 0 <= k < m ==> !Abbreviates(name, longs[k])
  }

  predicate Clash(longs: seq<LongOption>, name: cstring, m: nat)
    requires m < |longs|
  {
    exists k :: m < k < |longs| && Abbreviates(name, longs[k]) && !Identical(longs[k], longs[m])
  }

  /** The first option of just that name; failing that the first it abbreviates, unless
      another it abbreviates means something else. */
  ghost predicate Means(longs: seq<LongOption>, name: cstring, m: Match) {
    if exists k :: 0 <= k < |longs| && longs[k].name == name then m.Matched? && FirstExact(longs, name, m.index)
    else if exists k :: 0 <= k < |longs| && Abbreviates(name, longs[k]) then
      match m
      case Matched(i) => FirstAbbreviated(longs, name, i) && !Clash(longs, name, i)
      case Ambiguous => exists i :: FirstAbbreviated(longs, name, i) && Clash(longs, name, i)
      case NoMatch => false
    else m == NoMatch
  }

  /** The matching loop, option by option; `m` and `ambiguous` are its variables. */
  function Search(longs: seq<LongOption>, name: cstring, i: nat, m: Option<nat>, ambiguous: bool): Match
    requires i <= |longs| && (m.Some? ==> m.value < i) && (ambiguous ==> m.Some?)
    decreases |longs| - i
  {
    if i == |longs| then if ambiguous then Ambiguous else if m.Some? then Matched(m.value) else NoMatch
    else if !Abbreviates(name, longs[i]) then Search(longs, name, i + 1, m, ambiguous)
    else if |longs[i].name| == |name| then Matched(i)
    else if m.None? then Search(longs, name, i + 1, Some(i), ambiguous)
    else Search(longs, name, i + 1, m, ambiguous || !Identical(longs[i], longs[m.value]))
  }

  function LongMatch(longs: seq<LongOption>, name: cstring): Match {
    Search(longs, name, 0, None, false)
  }

  /** The loop finds what the name means. */
  lemma {:induction false} SearchFinds(longs: seq<LongOption>, name: cstring, i: nat, m: Option<nat>, ambiguous: bool)
    requires i <= |longs| && (m.Some? ==> m.value < i) && (ambiguous ==> m.Some?)
    requires forall k :: 0 <= k < i ==> longs[k].name != name
    requires m.None? ==> forall k :: 0 <= k < i ==> !Abbreviates(name, longs[k])
    requires m.Some? ==> FirstAbbreviated(longs, name, m.value)
    requires ambiguous ==> Clash(longs, name, m.value)
    requires m.Some? && !ambiguous ==>
      forall k :: m.value < k < i && Abbreviates(name, longs[k]) ==> Identical(longs[k], longs[m.value])
    ensures Means(longs, name, Search(longs, name, i, m, ambiguous))
    decreases |longs| - i
  {
    if i < |longs| {
      if !Abbreviates(name, longs[i]) {
        SearchFinds(longs, name, i + 1, m, ambiguous);
      } else if |longs[i].name| == |name| {
        assert longs[i].name[..|name|] == longs[i].name;
      } else if m.None? {
        SearchFinds(longs, name, i + 1, Some(i), ambiguous);
      } else {
        SearchFinds(longs, name, i + 1, m, ambiguous || !Identical(longs[i], longs[m.value]));
      }
    }
  }

  lemma LongMatchMeans(longs: seq<LongOption>, name: cstring)
    ensures Means(longs, name, LongMatch(longs, name))
  {
    SearchFinds(longs, name, 0, None, false);
  }

  /** No name has two meanings. */
  lemma MeaningIsUnique(longs: seq<LongOption>, name: cstring, m1: Match, m2: Match)
    requires Means(longs, name, m1) && Means(longs, name, m2)
    ensures m1 == m2
  {
    if exists k :: 0 <= k < |longs| && longs[k].name == name {
      assert m1.index == m2.index;
    } else if exists k :: 0 <= k < |longs| && Abbreviates(name, longs[k]) {
      SameFirst(longs, name);
    }
  }

  lemma SameFirst(longs: seq<LongOption>, name: cstring)
    ensures forall i: nat, j: nat :: FirstAbbreviated(longs, name, i) && FirstAbbreviated(longs, name, j) ==> i == j
  {
  }

  /** The first `n` characters of option `m`'s name stand for it, hold no '=' and answer -1. */
  predicate AnswersEnd(longs: seq<LongOption>, m: nat, n: nat)
    requires m < |longs| && n <= |longs[m].name|
  {
    var name := longs[m].name[..n];
    EQUALS !in name && LongMatch(longs, name) == Matched(m) && longs[m].flag.None? && longs[m].val == -1
  }

  /** No long option answers -1.  One that did would not be returned: the scan goes on
      with its name as if that were option letters. */
  predicate Steady(cfg: Config) {
    cfg.longs.Some? ==>
      var longs := cfg.longs.value;
      forall m, n :: 0 <= m < |longs| && 0 <= n <= |longs[m].name| ==> !AnswersEnd(longs, m, n)
  }

  /** No option answers -1, which is kept for "no more options": no option letter is 255,
      which is -1 as a signed `char`, and no name stands for a long option of value -1. */
  predicate Sound(cfg: Config) {
    255 !in Letters(cfg) && Steady(cfg)
  }

  /** A name that stands for an option is the front of that option's name. */
  lemma NameIsFront(longs: seq<LongOption>, name: cstring)
    ensures var r := LongMatch(longs, name);
            r.Matched? ==> r.index < |longs| && |name| <= |longs[r.index].name| && longs[r.index].name[..|name|] == name
  {
    LongMatchMeans(longs, name);
    hide LongMatch;
  }

  // ---------------------------------------------------------------- the meaning of one option

  /** `place` is empty or the rest of the argument at `optind`; or it is the rest of an
      argument that `optind` has passed; or the code reads past the end of a string or of
      the arguments, and nothing can be said any more. */
  datatype Standing = Inside | Behind | Lost

  /** The answer to one option: how many arguments it used up, where the scan stands
      in the next, and what it stored.  `optopt` is `None` where it stays. */
  datatype Scanned = Scanned(
    code: int, used: nat, place: cstring, optarg: Option<cstring>, optopt: Option<int>, index: Option<nat>,
    store: Option<(int, int)>, standing: Standing)

  const ASTRAY := Scanned(0, 0, [], None, None, None, None, Lost)

  /** `parse_long_options` on `cur` with the arguments `rest` left and `had` in `optarg`.
      Behind the null pointer at the end of the arguments there is nothing to read. */
  function LongOf(cfg: Config, rest: seq<cstring>, cur: cstring, had: Option<cstring>): (r: Scanned)
    requires cfg.longs.Some?
    ensures !r.standing.Behind? && r.place == []
    ensures r.standing.Inside? ==> 1 <= r.used <= 2 && (r.used <= |rest| || (rest == [] && r.used == 1))
    ensures rest != [] ==> r.standing.Inside?
    ensures r.standing.Lost? ==> r == ASTRAY
    ensures r.code == -1 ==> r.optopt.None? && r.store.None?
    ensures Steady(cfg) ==> r.code != -1
  {
    var eq := IndexOf(cur, EQUALS);
    var longs := cfg.longs.value;
    match LongMatch(longs, cur[..eq])
    case NoMatch => Scanned(BADCH, 1, [], had, Some(0), None, None, Inside)
    case Ambiguous => Scanned(BADCH, 1, [], had, Some(0), None, None, Inside)
    case Matched(m) =>
      NameIsFront(longs, cur[..eq]);
      assert AnswersEnd(longs, m, eq) <==> longs[m].flag.None? && longs[m].val == -1;
      var o := longs[m];
      var refused := Scanned(BadArg(cfg), 1, [], had, Some(if o.flag.None? then o.val else 0), None, None, Inside);
      if o.hasArg.NoArgument? && eq < |cur| then refused
      else if o.hasArg.RequiredArgument? && eq == |cur| && |rest| <= 1 then
        if rest == [] then ASTRAY else refused.(optarg := None)
      else
        Scanned(if o.flag.None? then o.val else 0,
                if o.hasArg.RequiredArgument? && eq == |cur| then 2 else 1, [],
                if o.hasArg.NoArgument? then had
                else if eq < |cur| then Some(cur[eq + 1..])
                else if o.hasArg.RequiredArgument? then Some(rest[1])
                else had,
                None, Some(m), if o.flag.None? then None else Some((o.flag.value, o.val)), Inside)
  }

  /** "-W name", `p` being what follows the 'W'. */
  function WOf(cfg: Config, rest: seq<cstring>, p: cstring, had: Option<cstring>): (r: Scanned)
    requires cfg.longs.Some?
    ensures !r.standing.Behind? && r.place == [] && (r.standing.Inside? ==> 0 < r.used)
    ensures rest != [] ==> r.standing.Inside? && r.used <= |rest|
    ensures rest == [] && r.standing.Inside? ==> r.used == 1
    ensures r.standing.Lost? ==> r.used == 0
  {
    if p != [] then LongOf(cfg, rest, p, had)
    else if |rest| <= 1 then Scanned(BadArg(cfg), 1, [], had, Some(UPPER_W), None, None, Inside)
    else
      var r := LongOf(cfg, rest[1..], rest[1], had);
      r.(used := r.used + 1)
  }

  /** The argument of letter `c`, `p` being what follows the letter. */
  function ArgumentOf(cfg: Config, rest: seq<cstring>, c: cchar, p: cstring, optional: bool): (r: Scanned)
    ensures r.standing.Inside? && r.place == [] && 1 <= r.used <= 2 && (r.used <= |rest| || (rest == [] && r.used == 1))
    ensures r.code == AsInt(c) || r.code == BadArg(cfg)
    ensures r.index == None && r.store == None
  {
    if p != [] then Scanned(AsInt(c), 1, [], Some(p), None, None, None, Inside)
    else if optional then Scanned(AsInt(c), 1, [], None, None, None, None, Inside)
    else if |rest| <= 1 then Scanned(BadArg(cfg), 1, [], None, Some(AsInt(c)), None, None, Inside)
    else Scanned(AsInt(c), 2, [], Some(rest[1]), None, None, None, Inside)
  }

  /** The option letter at `place`, with the arguments `rest` left; `standing` tells
      whether `place` is in the first of them. */
  function LetterOf(cfg: Config, rest: seq<cstring>, place: cstring, had: Option<cstring>,
        standing: Standing): (r: Scanned)
    requires place != [] && !standing.Lost?
    ensures r.place == [] || (r.place == place[1..] && r.used == 0 && r.standing == standing)
    ensures r.place == [] ==> !r.standing.Behind?
    ensures rest != [] ==> !r.standing.Lost? && r.used <= |rest|
    ensures rest == [] && !r.standing.Lost? ==> r.used <= 1
    ensures r.used == 0 && r.place == [] && !r.standing.Lost? ==>
        r.code == -1 && place == [DASH] && DASH !in Letters(cfg)
  {
    var letters, c, p := Letters(cfg), place[0], place[1..];
    var oli := IndexOf(letters, c);
    var after := if p == [] then Inside else standing;
    if c == COLON || (c == DASH && p != []) || oli == |letters| then
      if c == DASH && p == [] then Scanned(-1, 0, [], had, None, None, None, Inside)
      else Scanned(BADCH, if p == [] then 1 else 0, p, had, Some(AsInt(c)), None, None, after)
    else if cfg.longs.Some? && c == UPPER_W && Has(letters, oli + 1, SEMICOLON) then WOf(cfg, rest, p, had)
    else if !Has(letters, oli + 1, COLON) then
      Scanned(AsInt(c), if p == [] then 1 else 0, p, had, None, None, None, after)
    else ArgumentOf(cfg, rest, c, p, Has(letters, oli + 2, COLON))
  }

  /** The scan looks for a long option at `place`. */
  predicate AtLong(cfg: Config, rest: seq<cstring>, place: cstring, behind: bool)
    requires place != []
  {
    cfg.longs.Some? && place[0] == DASH && (behind || rest == [] || |place| != |rest[0]|)
  }

  function Drop(rest: seq<cstring>, k: nat): seq<cstring> {
    if k <= |rest| then rest[k..] else []
  }

  lemma DropFacts(s: seq<cstring>, k: nat)
    ensures k <= |s| ==> Drop(s, k) == s[k..]
    ensures Drop(s, k) == [] <==> k >= |s|
    ensures k < |s| ==> Drop(s, k)[0] == s[k]
    ensures |Drop(s, k)| <= 1 <==> k + 1 >= |s|
    ensures k + 1 < |s| ==> Drop(s, k)[1] == s[k + 1] && Drop(s, k)[1..] == Drop(s, k + 1)
  {
  }

  lemma DropTwice(s: seq<cstring>, k: nat, m: nat)
    ensures Drop(Drop(s, k), m) == Drop(s, k + m)
  {
  }

  /** What a long option of value -1 comes to: its name is scanned for option letters,
      with `optind` already behind it.  An empty name leaves no letter to read. */
  function FallThrough(cfg: Config, rest: seq<cstring>, name: cstring, long: Scanned): (r: Scanned)
    ensures name != [] && r.place != [] ==> r.standing.Behind? && r.place == name[1..] && r.used == long.used
    ensures name != [] && r.place == [] ==> !r.standing.Behind?
    ensures name == [] ==> r == ASTRAY
  {
    if name == [] then ASTRAY
    else
      var r := LetterOf(cfg, Drop(rest, long.used), name, long.optarg, Behind);
      r.(used := long.used + r.used, index := if r.index.Some? then r.index else long.index)
  }

  /** One option at `place`, with the arguments `rest` left. */
  function ScanAt(cfg: Config, rest: seq<cstring>, place: cstring, behind: bool): (r: Scanned)
    requires place != []
    ensures r.place != [] ==> r.standing == if behind || Falls(cfg, rest, place, behind) then Behind else Inside
    ensures r.place == [] ==> !r.standing.Behind?
    ensures r.place != [] && r.standing.Inside? ==> r.used == 0 && r.place == place[1..]
    ensures |r.place| < |place|
  {
    if AtLong(cfg, rest, place, behind) then
      var r := LongOf(cfg, rest, place[1..], None);
      if Falls(cfg, rest, place, behind) then FallThrough(cfg, rest, place[1..], r) else r
    else LetterOf(cfg, rest, place, None, if behind then Behind else Inside)
  }

  /** A long option at `place` answers -1. */
  predicate Falls(cfg: Config, rest: seq<cstring>, place: cstring, behind: bool)
    requires place != []
  {
    AtLong(cfg, rest, place, behind) && LongOf(cfg, rest, place[1..], None).code == -1
  }

  lemma ScanCases(cfg: Config, rest: seq<cstring>, place: cstring, behind: bool)
    requires place != []
    ensures var r := ScanAt(cfg, rest, place, behind);
            if !AtLong(cfg, rest, place, behind) then
              r == LetterOf(cfg, rest, place, None, if behind then Behind else Inside)
            else
              var long := LongOf(cfg, rest, place[1..], None);
              if long.code != -1 then r == long
              else if place[1..] == [] then r == ASTRAY
              else
                var s := LetterOf(cfg, Drop(rest, long.used), place[1..], long.optarg, Behind);
                r == s.(used := long.used + s.used, index := if s.index.Some? then s.index else long.index)
  {
    hide LongOf, LetterOf;
  }

  /** One option at `place`, which stands in the first of the arguments `rest`. */
  function ScanOption(cfg: Config, rest: seq<cstring>, place: cstring): (r: Scanned)
    requires rest != [] && place != [] && |place| <= |rest[0]|
    requires |place| == |rest[0]| ==> DASH in Letters(cfg)
    ensures |r.place| < |place|
    ensures !r.standing.Lost? ==> r.used <= |rest| + 1 && (r.used == 0 && r.place == [] ==> r.code == -1)
    ensures Steady(cfg) ==> r.standing.Inside? && r.used <= |rest|
    ensures Steady(cfg) && r.used > 0 ==> r.place == []
    ensures Steady(cfg) && r.used == 0 ==> r.place == place[1..] && (r.place == [] ==> r.code == -1)
    ensures Sound(cfg) && r.code == -1 ==> r.used == 0 && r.place == [] && cfg.longs.None? && DASH !in Letters(cfg)
  {
    ScanAt(cfg, rest, place, false)
  }

  // ---------------------------------------------------------------- the meaning of one call

  function Skips(cfg: Config, rest: seq<cstring>): (m: nat)
    ensures m <= |rest|
    ensures m < |rest| ==> !NonOption(cfg, rest[m])
  {
    if rest == [] || !NonOption(cfg, rest[0]) then 0 else 1 + Skips(cfg, rest[1..])
  }

  /** The non-options a call sets aside before it does anything else. */
  function Passed(cfg: Config, rest: seq<cstring>): (m: nat)
    ensures m <= |rest|
    ensures m < |rest| && NonOption(cfg, rest[m]) ==> m == 0 && (AllArgs(cfg) || !Permuting(cfg))
  {
    if AllArgs(cfg) || !Permuting(cfg) then 0 else Skips(cfg, rest)
  }

  /** What a call with an empty `place` comes to behind `skip` non-options: the end, a
      non-option it returns or stops at, or an option. */
  datatype Move = End(skip: nat, dashes: nat) | Stop | Take | Open(skip: nat)

  function MoveOf(cfg: Config, rest: seq<cstring>): (r: Move)
    ensures r.End? ==> r.skip + r.dashes <= |rest|
    ensures r.Take? ==> rest != []
    ensures r.Open? ==> r.skip < |rest| && !NonOption(cfg, rest[r.skip])
  {
    var m := Passed(cfg, rest);
    if m == |rest| then End(m, 0)
    else if NonOption(cfg, rest[m]) then if AllArgs(cfg) then Take else Stop
    else if Terminator(rest[m]) then End(m, 1)
    else Open(m)
  }

  /** A call ends the scan behind some non-options and maybe a "--", stops at a
      non-option, or answers something behind some non-options. */
  datatype Call = Finished(skip: nat, dashes: nat) | Stopped | Answer(skip: nat, scanned: Scanned)

  function CallOf(cfg: Config, rest: seq<cstring>, place: cstring): (r: Call)
    requires place != [] ==> rest != [] && |place| < |rest[0]|
    ensures r.Finished? ==> r.skip + r.dashes <= |rest|
    ensures r.Answer? ==> r.skip <= |rest|
    ensures Steady(cfg) && r.Answer? ==> r.scanned.standing.Inside? && r.skip + r.scanned.used <= |rest|
    ensures Steady(cfg) && r.Answer? && r.scanned.place != [] ==> r.scanned.used == 0 && r.skip < |rest|
  {
    if place != [] then Answer(0, ScanOption(cfg, rest, place))
    else
      match MoveOf(cfg, rest)
      case End(m, d) => Finished(m, d)
      case Stop => Stopped
      case Take => Answer(0, Scanned(INORDER, 1, [], Some(rest[0]), None, None, None, Inside))
      case Open(m) => Answer(m, ScanOption(cfg, rest[m..], FirstPlace(rest[m])))
  }

  /** How far the move has come after `m` non-options. */
  lemma MoveOn(cfg: Config, rest: seq<cstring>, m: nat)
    requires m <= |rest| && m + Skips(cfg, rest[m..]) == Skips(cfg, rest)
    ensures m == |rest| ==> Skips(cfg, rest) == m
    ensures m < |rest| && NonOption(cfg, rest[m]) ==> m + 1 + Skips(cfg, rest[m + 1..]) == Skips(cfg, rest)
    ensures m < |rest| && !NonOption(cfg, rest[m]) ==> Skips(cfg, rest) == m
  {
    if m < |rest| {
      assert rest[m..][0] == rest[m] && rest[m..][1..] == rest[m + 1..];
    }
  }

  // ---------------------------------------------------------------- where everything lies

  /** `now` is `orig` with the arguments before `optind` in three blocks: used ones,
      the skipped non-options, and the ones used since those were skipped. */
  ghost predicate Laid(now: seq<cstring>, orig: seq<cstring>, optind: nat, ns: int, ne: int, consumed: seq<cstring>,
        skipped: seq<cstring>)
  {
    && 1 <= optind <= |orig| && |now| == |orig|
    && (ns == -1 ==> ne == -1)
    && (ns != -1 ==> 1 <= ns < optind && (ne != -1 ==> ns < ne <= optind))
    && var lo := if ns == -1 then optind else ns;
       var hi := if ne == -1 then optind else ne;
       && |skipped| == hi - lo && |consumed| == lo - 1 + optind - hi
       && now == orig[..1] + consumed[..lo - 1] + skipped + consumed[lo - 1..] + orig[optind..]
  }

  /** Nothing before `optind` is out of order. */
  function Sorted(orig: seq<cstring>, optind: nat, consumed: seq<cstring>, skipped: seq<cstring>): seq<cstring>
    requires 1 <= optind <= |orig|
  {
    orig[..1] + consumed + skipped + orig[optind..]
  }

  lemma LaidRest(now: seq<cstring>, orig: seq<cstring>, optind: nat, ns: int, ne: int, consumed: seq<cstring>,
        skipped: seq<cstring>)
    requires Laid(now, orig, optind, ns, ne, consumed, skipped)
    ensures 1 <= optind <= |orig| == |now|
    ensures ne != -1 ==> ne <= optind
    ensures ns == -1 ==> ne == -1
    ensures now[optind..] == orig[optind..]
    ensures optind < |now| ==> now[optind] == orig[optind]
  {
  }

  lemma LaidCounts(now: seq<cstring>, orig: seq<cstring>, optind: nat, ns: int, ne: int, consumed: seq<cstring>,
        skipped: seq<cstring>)
    requires Laid(now, orig, optind, ns, ne, consumed, skipped)
    ensures 1 + |consumed| + |skipped| == optind
    ensures ne != -1 ==> ns != -1 && optind - (ne - ns) == 1 + |consumed|
    ensures ns == -1 <==> skipped == []
  {
  }

  /** Exchanging the skipped block with what was used since sorts the arguments. */
  lemma RotationSorts(now: seq<cstring>, orig: seq<cstring>, optind: nat, ns: int, ne: int, consumed: seq<cstring>,
        skipped: seq<cstring>)
    requires Laid(now, orig, optind, ns, ne, consumed, skipped) && ns != -1 && ne != -1
    ensures Rotation.Rotated(now, ns, ne, optind) == Sorted(orig, optind, consumed, skipped)
  {
    hide Rotation.Rotated;
    var c1, c2 := consumed[..ns - 1], consumed[ns - 1..];
    RotatedBlocks(orig[..1] + c1, skipped, c2, orig[optind..]);
    Reassociate(orig[..1], c1, c2, skipped, orig[optind..]);
    assert consumed == c1 + c2;
  }

  lemma Reassociate<T>(h: seq<T>, c1: seq<T>, c2: seq<T>, s: seq<T>, z: seq<T>)
    ensures h + c1 + c2 + s + z == h + (c1 + c2) + s + z
  {
    assert h + c1 + c2 == h + (c1 + c2);
  }

  lemma RotatedBlocks<T>(a: seq<T>, x: seq<T>, y: seq<T>, z: seq<T>)
    ensures Rotation.Rotated(a + x + y + z, |a|, |a| + |x|, |a| + |x| + |y|) == a + y + x + z
  {
    var s := a + x + y + z;
    assert s[..|a|] == a;
    assert s[|a|..|a| + |x|] == x;
    assert s[|a| + |x|..|a| + |x| + |y|] == y;
    assert s[|a| + |x| + |y|..] == z;
  }

  lemma UnrotatedIsSorted(now: seq<cstring>, orig: seq<cstring>, optind: nat, ns: int, consumed: seq<cstring>,
        skipped: seq<cstring>)
    requires Laid(now, orig, optind, ns, -1, consumed, skipped)
    ensures now == Sorted(orig, optind, consumed, skipped)
    ensures 1 + |consumed| == if ns == -1 then optind else ns
  {
    var lo := if ns == -1 then optind else ns;
    assert consumed[..lo - 1] == consumed && consumed[lo - 1..] == [];
    assert orig[..1] + consumed + skipped + [] + orig[optind..] == Sorted(orig, optind, consumed, skipped);
  }

  /** One more non-option goes to the end of the skipped block. */
  lemma SkipOne(now: seq<cstring>, orig: seq<cstring>, optind: nat, consumed: seq<cstring>, skipped: seq<cstring>)
    requires 1 <= optind < |orig| && now == Sorted(orig, optind, consumed, skipped)
    requires optind == 1 + |consumed| + |skipped|
    ensures Laid(now, orig, optind + 1, 1 + |consumed|, -1, consumed, skipped + [orig[optind]])
  {
    var lo := 1 + |consumed|;
    assert consumed[..lo - 1] == consumed && consumed[lo - 1..] == [];
    assert orig[optind..] == [orig[optind]] + orig[optind + 1..];
    assert orig[..1] + consumed + skipped + ([orig[optind]] + orig[optind + 1..])
        == orig[..1] + consumed + (skipped + [orig[optind]]) + [] + orig[optind + 1..];
  }

  /** The arguments an option uses join the used ones. */
  lemma UseSome(now: seq<cstring>, orig: seq<cstring>, optind: nat, ns: int, ne: int, consumed: seq<cstring>,
        skipped: seq<cstring>, used: nat)
    requires Laid(now, orig, optind, ns, ne, consumed, skipped) && (ns == -1 || ne != -1)
    requires optind + used <= |orig|
    ensures Laid(now, orig, optind + used, ns, ne, consumed + orig[optind..optind + used], skipped)
  {
    var lo, more := if ns == -1 then optind else ns, orig[optind..optind + used];
    var lo' := if ns == -1 then optind + used else ns;
    var c := consumed + more;
    assert orig[optind..] == more + orig[optind + used..];
    if ns == -1 {
      assert skipped == [] && consumed[lo - 1..] == [] && consumed[..lo - 1] == consumed;
      assert c[..lo' - 1] == c && c[lo' - 1..] == [];
      assert orig[..1] + consumed + [] + [] + (more + orig[optind + used..])
        == orig[..1] + c + [] + [] + orig[optind + used..];
    } else {
      assert c[..lo - 1] == consumed[..lo - 1] && c[lo - 1..] == consumed[lo - 1..] + more;
      assert orig[..1] + consumed[..lo - 1] + skipped + consumed[lo - 1..] + (more + orig[optind + used..])
          == orig[..1] + c[..lo - 1] + skipped + c[lo - 1..] + orig[optind + used..];
    }
  }

  lemma OpenBlock(now: seq<cstring>, orig: seq<cstring>, optind: nat, ns: int, consumed: seq<cstring>,
        skipped: seq<cstring>)
    requires Laid(now, orig, optind, ns, -1, consumed, skipped) && ns != -1
    ensures Laid(now, orig, optind, ns, optind, consumed, skipped)
  {
  }

  // ---------------------------------------------------------------- the scanner

  /** All the scanner keeps between calls, with the arguments as they were and which of
      them were used and skipped. */
  datatype Scanner = Scanner(
    argv: seq<cstring>, optind: nat, place: cstring, ns: int, ne: int, optarg: Option<cstring>, optopt: int,
    flags: map<int, int>, standing: Standing, orig: seq<cstring>, consumed: seq<cstring>, skipped: seq<cstring>)

  ghost predicate InOrder(s: Scanner) {
    Laid(s.argv, s.orig, s.optind, s.ns, s.ne, s.consumed, s.skipped)
  }

  /** Between calls `place` is the rest of the current argument, or empty. */
  ghost predicate Ready(s: Scanner) {
    && s.standing.Inside? && InOrder(s) && (s.ns == -1 || s.ne != -1)
    && if s.place == [] then s.ne != -1 ==> s.ne < s.optind
       else s.optind < |s.argv| && |s.place| < |s.argv[s.optind]| && Suffix(s.place, s.argv[s.optind])
  }

  /** Or it is the rest of an argument that was passed. */
  ghost predicate Adrift(s: Scanner) {
    s.standing.Behind? && InOrder(s) && (s.ns == -1 || s.ne != -1) && s.place != []
  }

  ghost predicate Usable(s: Scanner) {
    Ready(s) || Adrift(s)
  }

  /** How many arguments were used since the last non-option was skipped. */
  function Recent(s: Scanner): int {
    if s.ne == -1 then 0 else s.optind - s.ne
  }

  /** The scan has ended: `m` more were skipped and `d` used, the used arguments come
      first, then the skipped ones, and `optind` stands at the first of those. */
  ghost predicate EndedAt(s: Scanner, t: Scanner, m: nat, d: nat) {
    && s.optind + m + d <= |s.orig| && 1 <= s.optind
    && Ready(t) && t.place == [] && t.ns == -1 && t.skipped == [] && t.orig == t.argv
    && t.argv == Sorted(s.orig, s.optind + m + d,
                        s.consumed + s.orig[s.optind + m..s.optind + m + d], s.skipped + s.orig[s.optind..s.optind + m])
    && t.optind == 1 + |s.consumed| + d
  }

  /** `m` arguments were skipped and the next `used` ones used. */
  ghost predicate FiledAs(s: Scanner, t: Scanner, m: nat, used: nat) {
    && s.optind + m + used <= |s.orig|
    && InOrder(t) && t.orig == s.orig && t.optind == s.optind + m + used
    && t.skipped == s.skipped + s.orig[s.optind..s.optind + m]
    && t.consumed == s.consumed + s.orig[s.optind + m..s.optind + m + used]
    && Recent(t) == (if m > 0 then used else if s.ns == -1 then 0 else Recent(s) + used)
  }

  /** What an option of the code `r.code` comes to behind `m` non-options.  If it moves
      `optind` past the end, all arguments left are filed. */
  ghost predicate Outcome(s: Scanner, t: Scanner, m: nat, r: Scanned, code: int, index: Option<nat>) {
    && t.standing == r.standing
    && (!r.standing.Lost? ==>
          && Stored(s, t, r, code, index)
          && if s.optind + m + r.used <= |s.orig| then
               FiledAs(s, t, m, r.used) && (r.used > 0 || r.place != [] ==> Usable(t))
             else
               && s.optind + m <= |s.orig| && t.optind == s.optind + m + r.used
               && FiledAs(s, t.(optind := |s.orig|), m, |s.orig| - s.optind - m))
  }

  /** What the scan at a place stored besides. */
  predicate Stored(s: Scanner, t: Scanner, r: Scanned, code: int, index: Option<nat>) {
    && code == r.code && index == r.index && t.optarg == r.optarg && t.place == r.place
    && t.optopt == (if r.optopt.Some? then r.optopt.value else s.optopt)
    && t.flags == (if r.store.Some? then s.flags[r.store.value.0 := r.store.value.1] else s.flags)
  }

  /** What skipping the non-options in front leaves. */
  ghost predicate SkippedTo(cfg: Config, s: Scanner, t: Scanner, m: nat) {
    && 1 <= s.optind && s.optind + m <= |s.orig| && m == Passed(cfg, s.orig[s.optind..])
    && t == s.(argv := t.argv, optind := s.optind + m, ns := t.ns, ne := t.ne, skipped := t.skipped)
    && t.skipped == s.skipped + s.orig[s.optind..s.optind + m]
    && InOrder(t) && (t.ne != -1 ==> t.ne < t.optind)
    && (if m == 0 then t == s else t.ns != -1 && t.ne == -1)
  }

  /** One more non-option is set aside. */
  ghost predicate SkippedOne(s: Scanner, t: Scanner) {
    && s.optind < |s.orig|
    && t == s.(argv := t.argv, optind := s.optind + 1, ns := t.ns, ne := -1, skipped := s.skipped + [s.orig[s.optind]])
    && InOrder(t) && t.ns != -1
  }

  /** The loop over the non-options, `m` of them in. */
  ghost predicate Skipping(cfg: Config, s: Scanner, t: Scanner, m: nat) {
    && 1 <= s.optind && s.optind + m <= |s.orig|
    && m + Skips(cfg, s.orig[s.optind..][m..]) == Skips(cfg, s.orig[s.optind..])
    && t == s.(argv := t.argv, optind := s.optind + m, ns := t.ns, ne := t.ne, skipped := t.skipped)
    && t.skipped == s.skipped + s.orig[s.optind..s.optind + m]
    && InOrder(t) && (t.ne != -1 ==> t.ne < t.optind)
    && (if m == 0 then t == s else t.ns != -1 && t.ne == -1 && !AllArgs(cfg) && Permuting(cfg))
  }

  /** The end of the scan: the arguments are sorted and `optind` is at the first skipped. */
  ghost predicate FinishedTo(s: Scanner, t: Scanner) {
    && 1 <= s.optind <= |s.orig|
    && t == s.(argv := t.argv, optind := 1 + |s.consumed|, ns := -1, ne := -1, orig := t.argv, consumed := t.consumed,
      skipped := [])
    && Ready(t) && t.argv == Sorted(s.orig, s.optind, s.consumed, s.skipped)
  }

  /** The current argument is filed as used. */
  ghost predicate UsedOne(s: Scanner, t: Scanner) {
    && s.optind + 1 <= |s.orig|
    && t == s.(optind := s.optind + 1, consumed := s.consumed + s.orig[s.optind..s.optind + 1])
    && InOrder(t) && (t.ne != -1 ==> t.ne < t.optind)
  }

  /** Where `UpdatePlace` leaves the scanner. */
  ghost predicate Moved(cfg: Config, s: Scanner, t: Scanner, answer: Option<int>, m: nat)
    requires s.optind <= |s.orig|
  {
    && t.optopt == s.optopt && t.flags == s.flags && t.standing == s.standing
    && match MoveOf(cfg, s.orig[s.optind..])
       case End(k, d) => answer == Some(-1) && m == k && t.optarg == None && EndedAt(s, t, m, d)
       case Stop => answer == Some(-1) && m == 0 && t == s && Ready(t)
       case Take =>
         && answer == Some(INORDER) && m == 0 && t.optarg == Some(s.orig[s.optind])
         && t.place == [] && FiledAs(s, t, 0, 1) && Ready(t)
       case Open(k) =>
         && answer == None && m == k && t.optarg == None && FiledAs(s, t, m, 0)
         && (t.ns == -1 || t.ne != -1) && (t.ns == -1 <==> s.ns == -1 && m == 0)
         && t.place == FirstPlace(s.orig[s.optind + m])
  }

  /** `place` is where an option can stand. */
  ghost predicate Scannable(cfg: Config, s: Scanner) {
    && s.place != [] && !s.standing.Lost? && s.optind <= |s.orig|
    && (s.standing.Inside? ==>
          && s.optind < |s.orig| && Suffix(s.place, s.orig[s.optind])
          && (|s.place| == |s.orig[s.optind]| ==> DASH in Letters(cfg)))
  }

  /** The scan at `place` uses arguments of the first ones left. */
  ghost predicate ScannedFrom(cfg: Config, s: Scanner, t: Scanner, code: int, index: Option<nat>)
    requires Scannable(cfg, s)
  {
    Outcome(s, t, 0, ScanAt(cfg, s.orig[s.optind..], s.place, s.standing.Behind?), code, index)
  }

  /** One call: the answer is that of the arguments as they were, and the arguments it
      passed over are filed as used or skipped. */
  ghost predicate Called(cfg: Config, s: Scanner, t: Scanner, code: int, index: Option<nat>)
    requires Usable(s)
  {
    LaidRest(s.argv, s.orig, s.optind, s.ns, s.ne, s.consumed, s.skipped);
    var rest := s.orig[s.optind..];
    if s.standing.Behind? then Outcome(s, t, 0, ScanAt(cfg, rest, s.place, true), code, index)
    else
      match CallOf(cfg, rest, s.place)
      case Finished(m, d) => code == -1 && index == None && EndedAt(s, t, m, d)
      case Stopped => code == -1 && index == None && t == s.(optarg := None)
      case Answer(m, r) => Outcome(s, t, m, r, code, index)
  }

  class Getopt {
    const nargv: array<cstring>
    var optind: nat
    var place: cstring
    /** Where `place` stands, which the code finds out by comparing pointers. */
    var standing: Standing
    var nonoptStart: int
    var nonoptEnd: int
    var optarg: Option<cstring>
    var optopt: int
    /** The variables long options store to. */
    var flags: map<int, int>
    /** The arguments as they were, and which of them were used and skipped. */
    ghost var orig: seq<cstring>
    ghost var consumed: seq<cstring>
    ghost var skipped: seq<cstring>

    ghost function State(): Scanner
      reads this, nargv
    {
      Scanner(nargv[..], optind, place, nonoptStart, nonoptEnd, optarg, optopt, flags, standing, orig, consumed,
        skipped)
    }

    ghost predicate Ordered()
      reads this, nargv
    {
      Laid(nargv[..], orig, optind, nonoptStart, nonoptEnd, consumed, skipped)
    }

    ghost predicate Valid()
      reads this, nargv
    {
      Usable(State())
    }

    constructor (argv: array<cstring>)
      requires argv.Length >= 1
      ensures nargv == argv && Valid() && optind == 1 && place == [] && orig == argv[..] && consumed == []
          && skipped == []
    {
      nargv, optind, place, nonoptStart, nonoptEnd := argv, 1, [], -1, -1;
      standing := Inside;
      optarg, optopt, flags := None, BADCH, map[];
      orig, consumed, skipped := argv[..], [], [];
    }

    /** `nargv[k]`, a null pointer behind the last argument. */
    function Argument(k: nat): Option<cstring>
      reads nargv
    {
      if k < nargv.Length then Some(nargv[k]) else None
    }

    /** The arguments from `k` on. */
    ghost function From(k: nat): seq<cstring>
      reads nargv
    {
      Drop(nargv[..], k)
    }

    /** The loop over the long options. */
    method MatchName(longs: seq<LongOption>, name: cstring) returns (found: Option<nat>, ambiguous: bool)
      ensures LongMatch(longs, name)
           == if ambiguous then Ambiguous else if found.Some? then Matched(found.value) else NoMatch
      ensures found.Some? ==> found.value < |longs|
    {
      hide Means;
      found, ambiguous := None, false;
      var i := 0;
      while i < |longs|
        invariant i <= |longs| && (found.Some? ==> found.value < i) && (ambiguous ==> found.Some?)
        invariant Search(longs, name, i, found, ambiguous) == LongMatch(longs, name)
      {
        if Abbreviates(name, longs[i]) {
          if |longs[i].name| == |name| {
            found := Some(i);
            ambiguous := false;
            break;
          }
          if found.None? {
            found := Some(i);
          } else if !Identical(longs[i], longs[found.value]) {
            ambiguous := true;
          }
        }
        i := i + 1;
      }
    }

    method ParseLongOptions(cfg: Config) returns (code: int, index: Option<nat>)
      requires cfg.longs.Some? && !standing.Lost?
      modifies this`optind, this`optarg, this`optopt, this`flags, this`standing
      ensures var s := LongOf(cfg, From(old(optind)), place, old(optarg));
              && standing == (if s.standing.Lost? then Lost else old(standing))
              && (!s.standing.Lost? ==>
                    && code == s.code && index == s.index && optarg == s.optarg && optind == old(optind) + s.used
                    && optopt == (if s.optopt.Some? then s.optopt.value else old(optopt))
                    && flags == (if s.store.Some? then old(flags)[s.store.value.0 := s.store.value.1] else old(flags)))
    {
      hide LongMatch, Drop, BadArg;
      DropFacts(nargv[..], optind);
      var longs := cfg.longs.value;
      var currentArgv := place;
      index := None;
      optind := optind + 1;
      var currentArgvLen := IndexOf(currentArgv, EQUALS);
      var hasEqual := currentArgvLen < |currentArgv|;
      var name := currentArgv[..currentArgvLen];
      var found, ambiguous := MatchName(longs, name);
      if ambiguous {
        optopt := 0;
        return BADCH, None;
      }
      if found.None? {
        optopt := 0;
        return BADCH, None;
      }
      var o := longs[found.value];
      if o.hasArg == NoArgument && hasEqual {
        optopt := if o.flag.None? then o.val else 0;
        return BadArg(cfg), None;
      }
      if o.hasArg == RequiredArgument || o.hasArg == OptionalArgument {
        if hasEqual {
          optarg := Some(currentArgv[currentArgvLen + 1..]);
        } else if o.hasArg == RequiredArgument {
          if optind > nargv.Length {
            standing := Lost;
            return 0, None;
          }
          optarg := Argument(optind);
          optind := optind + 1;
        }
      }
      if o.hasArg == RequiredArgument && optarg == None {
        optopt := if o.flag.None? then o.val else 0;
        optind := optind - 1;
        return BadArg(cfg), None;
      }
      index := found;
      if o.flag.Some? {
        flags := flags[o.flag.value := o.val];
        code := 0;
      } else {
        code := o.val;
      }
    }

    /** "-W name", from behind the 'W' on. */
    method ScanW(cfg: Config) returns (code: int, index: Option<nat>)
      requires cfg.longs.Some? && !standing.Lost?
      modifies this`optind, this`place, this`optarg, this`optopt, this`flags, this`standing
      ensures var s := WOf(cfg, From(old(optind)), old(place), old(optarg));
              && standing == (if s.standing.Lost? then Lost else old(standing))
              && (!s.standing.Lost? ==>
                    && code == s.code && index == s.index && optarg == s.optarg && optind == old(optind) + s.used
                    && optopt == (if s.optopt.Some? then s.optopt.value else old(optopt))
                    && flags == (if s.store.Some? then old(flags)[s.store.value.0 := s.store.value.1] else old(flags))
                    && place == [])
    {
      hide LongOf, BadArg, Drop;
      DropFacts(nargv[..], optind);
      if place == [] {
        optind := optind + 1;
        if optind >= nargv.Length {
          optopt := UPPER_W;
          return BadArg(cfg), None;
        }
        place := nargv[optind];
      }
      code, index := ParseLongOptions(cfg);
      place := [];
    }

    /** The argument of letter `c`, from behind the letter on. */
    method TakeArgument(cfg: Config, c: cchar, optional: bool) returns (code: int)
      modifies this`optind, this`place, this`optarg, this`optopt
      ensures var s := ArgumentOf(cfg, From(old(optind)), c, old(place), optional);
              && code == s.code && optarg == s.optarg && optind == old(optind) + s.used && place == []
              && optopt == (if s.optopt.Some? then s.optopt.value else old(optopt))
    {
      hide BadArg, Drop;
      DropFacts(nargv[..], optind);
      code := AsInt(c);
      optarg := None;
      if place != [] {
        optarg := Some(place);
      } else if !optional {
        optind := optind + 1;
        if optind >= nargv.Length {
          optopt := AsInt(c);
          return BadArg(cfg);
        }
        optarg := Argument(optind);
      }
      place := [];
      optind := optind + 1;
    }

    /** The option letter at `place`. */
    method ScanLetter(cfg: Config) returns (code: int, index: Option<nat>)
      requires place != [] && !standing.Lost?
      modifies this`optind, this`place, this`optarg, this`optopt, this`flags, this`standing
      ensures var s := LetterOf(cfg, From(old(optind)), old(place), old(optarg), old(standing));
              && standing == s.standing
              && (!s.standing.Lost? ==>
                    && code == s.code && index == s.index && optarg == s.optarg && optind == old(optind) + s.used
                    && optopt == (if s.optopt.Some? then s.optopt.value else old(optopt))
                    && flags == (if s.store.Some? then old(flags)[s.store.value.0 := s.store.value.1] else old(flags))
                    && place == s.place)
    {
      hide LongOf, WOf, ArgumentOf, IndexOf, Letters, AsInt, BadArg, Steady, Has, Drop;
      DropFacts(nargv[..], optind);
      var letters := Letters(cfg);
      index := None;
      var c := place[0];
      place := place[1..];
      var oli := IndexOf(letters, c);
      if c == COLON || (c == DASH && place != []) || oli == |letters| {
        code := BADCH;
        if c == DASH && place == [] {
          code := -1;
        } else {
          if place == [] {
            optind := optind + 1;
          }
          optopt := AsInt(c);
        }
      } else if cfg.longs.Some? && c == UPPER_W && Has(letters, oli + 1, SEMICOLON) {
        code, index := ScanW(cfg);
      } else if !Has(letters, oli + 1, COLON) {
        if place == [] {
          optind := optind + 1;
        }
        code := AsInt(c);
      } else {
        code := TakeArgument(cfg, c, Has(letters, oli + 2, COLON));
      }
      if place == [] && !standing.Lost? {
        standing := Inside;
      }
    }

    /** The option letter at `place`, or the long option that starts there.  A long option
        that answers -1 is not returned. */
    method ScanPlace(cfg: Config) returns (code: int, index: Option<nat>)
      requires place != [] && optarg == None && !standing.Lost?
      requires standing.Inside? ==> optind < nargv.Length && |place| <= |nargv[optind]|
      modifies this`optind, this`place, this`optarg, this`optopt, this`flags, this`standing
      ensures var s := ScanAt(cfg, From(old(optind)), old(place), old(standing).Behind?);
              && standing == s.standing
              && (!s.standing.Lost? ==>
                    && code == s.code && index == s.index && optarg == s.optarg && optind == old(optind) + s.used
                    && optopt == (if s.optopt.Some? then s.optopt.value else old(optopt))
                    && flags == (if s.store.Some? then old(flags)[s.store.value.0 := s.store.value.1] else old(flags))
                    && place == s.place)
    {
      hide LongOf, LetterOf, Drop, ScanAt, Falls, FallThrough;
      DropFacts(nargv[..], optind);
      ScanCases(cfg, From(optind), place, standing.Behind?);
      ghost var start := optind;
      index := None;
      if cfg.longs.Some? && place[0] == DASH && !(standing.Inside? && |place| == |nargv[optind]|) {
        place := place[1..];
        code, index := ParseLongOptions(cfg);
        if standing.Lost? {
          return;
        }
        if code != -1 {
          place := [];
          standing := Inside;
          return;
        }
        if place == [] {
          standing := Lost;
          return;
        }
        standing := Behind;
        DropTwice(nargv[..], start, optind - start);
      }
      var more: Option<nat>;
      code, more := ScanLetter(cfg);
      index := if more.Some? then more else index;
    }

    /** Moves the used arguments in front of the skipped ones. */
    method Permute()
      requires Ordered() && nonoptStart != -1 && nonoptEnd != -1 && nonoptEnd < optind
      modifies nargv
      ensures nargv[..] == Sorted(orig, optind, consumed, skipped)
    {
      RotationSorts(nargv[..], orig, optind, nonoptStart, nonoptEnd, consumed, skipped);
      var start: nat, end: nat := nonoptStart, nonoptEnd;
      Rotation.PermuteArgs(start, end, optind, nargv);
    }

    /** The end of the scan: the skipped non-options come last and `optind` is the
        first of them. */
    method Finish()
      requires Ordered() && place == [] && standing.Inside? && (nonoptEnd != -1 ==> nonoptEnd < optind)
      modifies this`optind, this`nonoptStart, this`nonoptEnd, this`orig, this`consumed, this`skipped, nargv
      ensures FinishedTo(old(State()), State())
    {
      hide Sorted, Laid, FinishedTo;
      LaidRest(nargv[..], orig, optind, nonoptStart, nonoptEnd, consumed, skipped);
      LaidCounts(nargv[..], orig, optind, nonoptStart, nonoptEnd, consumed, skipped);
      ghost var sorted, s0 := Sorted(orig, optind, consumed, skipped), State();
      if nonoptEnd != -1 {
        Permute();
        optind := optind - (nonoptEnd - nonoptStart);
      } else {
        UnrotatedIsSorted(nargv[..], orig, optind, nonoptStart, consumed, skipped);
        if nonoptStart != -1 {
          optind := nonoptStart;
        }
      }
      assert nargv[..] == sorted;
      nonoptStart, nonoptEnd := -1, -1;
      orig := nargv[..];
      consumed, skipped := orig[1..optind], [];
      FinishedSorted(s0, State());
    }

    /** Sets a non-option aside. */
    method SkipArgument()
      requires Ordered() && optind < nargv.Length && (nonoptEnd != -1 ==> nonoptEnd < optind)
      modifies this`optind, this`nonoptStart, this`nonoptEnd, this`skipped, nargv
      ensures SkippedOne(old(State()), State())
    {
      hide Sorted, Laid;
      LaidRest(nargv[..], orig, optind, nonoptStart, nonoptEnd, consumed, skipped);
      LaidCounts(nargv[..], orig, optind, nonoptStart, nonoptEnd, consumed, skipped);
      if nonoptEnd != -1 {
        Permute();
      } else {
        UnrotatedIsSorted(nargv[..], orig, optind, nonoptStart, consumed, skipped);
      }
      SkipOne(nargv[..], orig, optind, consumed, skipped);
      if nonoptStart == -1 {
        nonoptStart := optind;
      } else if nonoptEnd != -1 {
        nonoptStart := optind - (nonoptEnd - nonoptStart);
        nonoptEnd := -1;
      }
      skipped := skipped + [orig[optind]];
      optind := optind + 1;
    }

    /** Files the current argument as used. */
    method UseOne()
      requires Ordered() && (nonoptStart == -1 || nonoptEnd != -1) && optind < nargv.Length
      modifies this`optind, this`consumed
      ensures UsedOne(old(State()), State())
    {
      hide Laid;
      LaidRest(nargv[..], orig, optind, nonoptStart, nonoptEnd, consumed, skipped);
      UseSome(nargv[..], orig, optind, nonoptStart, nonoptEnd, consumed, skipped, 1);
      consumed := consumed + orig[optind..optind + 1];
      optind := optind + 1;
    }

    /** Sets aside the non-options in front, if that is how the scan is set up. */
    method SkipNonOptions(cfg: Config) returns (ghost m: nat)
      requires Ready(State()) && place == []
      modifies this`optind, this`nonoptStart, this`nonoptEnd, this`skipped, nargv
      ensures SkippedTo(cfg, old(State()), State(), m)
    {
      hide Laid, Skips, NonOption, AllArgs, Permuting, Skipping, SkippedTo, SkippedOne;
      ghost var s0 := State();
      m := 0;
      SkippingStarts(cfg, s0);
      SkippingFacts(cfg, s0, State(), 0);
      while optind < nargv.Length && NonOption(cfg, nargv[optind]) && !AllArgs(cfg) && Permuting(cfg)
        invariant Skipping(cfg, s0, State(), m)
        invariant Ordered() && (nonoptEnd != -1 ==> nonoptEnd < optind) && orig == s0.orig
        invariant 1 <= optind <= |orig| == nargv.Length
        invariant optind < nargv.Length ==> nargv[optind] == orig[optind]
        decreases nargv.Length - optind
      {
        ghost var s1 := State();
        SkipArgument();
        SkippingMore(cfg, s0, s1, State(), m);
        m := m + 1;
        SkippingFacts(cfg, s0, State(), m);
      }
      SkippingEnds(cfg, s0, State(), m);
    }

    /** Moves on to the next option, or to the end; `m` counts the non-options passed. */
    method UpdatePlace(cfg: Config) returns (answer: Option<int>, ghost m: nat)
      requires Ready(State()) && place == [] && optarg == None && optind <= |orig|
      modifies this`optind, this`place, this`nonoptStart, this`nonoptEnd, this`optarg, this`orig, this`consumed,
        this`skipped, nargv
      ensures Moved(cfg, old(State()), State(), answer, m)
    {
      hide Laid, Passed, Sorted, NonOption, AllArgs, Permuting, Skips, Moved, SkippedTo, FinishedTo, UsedOne,
        FirstPlace;
      ghost var s0 := State();
      m := SkipNonOptions(cfg);
      ghost var s1 := State();
      SkippedFacts(cfg, s0, s1, m);
      if optind >= nargv.Length {
        Finish();
        MovedToEnd(cfg, s0, s1, State(), m);
        return Some(-1), m;
      }
      if NonOption(cfg, nargv[optind]) {
        if AllArgs(cfg) {
          LeftInFront(cfg, s0, s1, m);
          optarg := Some(nargv[optind]);
          UseOne();
          MovedByTaking(cfg, s0, s1, State(), m);
          return Some(INORDER), m;
        }
        MovedNowhere(cfg, s0, s1, m);
        return Some(-1), m;
      }
      if nonoptStart != -1 && nonoptEnd == -1 {
        OpenBlock(nargv[..], orig, optind, nonoptStart, consumed, skipped);
        nonoptEnd := optind;
      }
      if nargv[optind] == [DASH, DASH] {
        UseOne();
        ghost var s2 := State();
        UsedFacts(s1.(ne := nonoptEnd), s2);
        Finish();
        MovedToDashes(cfg, s0, s1, s2, State(), m);
        return Some(-1), m;
      }
      NonOptionFacts(cfg, nargv[optind]);
      place := FirstPlace(nargv[optind]);
      MovedToOption(cfg, s0, s1, State(), m);
      return None, m;
    }

    /** One call, as `Called` says.  The next call is covered unless the code lost its way,
        gave up, or moved `optind` past the end. */
    method GetoptInternal(cfg: Config) returns (code: int, index: Option<nat>)
      requires Valid()
      modifies this, nargv
      ensures Called(cfg, old(State()), State(), code, index)
    {
      hide Laid, Sorted, Called, Moved, ScannedFrom, Suffix, Letters;
      ghost var s0 := State();
      LaidRest(nargv[..], orig, optind, nonoptStart, nonoptEnd, consumed, skipped);
      optarg := None;
      index := None;
      ghost var s1 := State();
      if place != [] {
        PlaceIsScannable(cfg, s1);
        code, index := ScanCurrent(cfg);
        CalledInside(cfg, s0, State(), code, index);
        return;
      }
      var answer, m := UpdatePlace(cfg);
      if answer.Some? {
        CalledToEnd(cfg, s0, State(), answer, m);
        return answer.value, None;
      }
      ghost var s2 := State();
      OptionFacts(cfg, s1, s2, m);
      code, index := ScanCurrent(cfg);
      CalledAtOption(cfg, s0, s2, State(), m, code, index);
    }

    /** Scans at `place` and files the arguments that took. */
    method ScanCurrent(cfg: Config) returns (code: int, index: Option<nat>)
      requires Ordered() && (nonoptStart == -1 || nonoptEnd != -1) && optarg == None && Scannable(cfg, State())
      modifies this`optind, this`place, this`optarg, this`optopt, this`flags, this`standing, this`consumed
      ensures ScannedFrom(cfg, old(State()), State(), code, index)
      ensures nonoptStart == old(nonoptStart) && nonoptEnd == old(nonoptEnd)
    {
      hide Laid, ScanAt, ScannedFrom, Letters, Drop;
      LaidRest(nargv[..], orig, optind, nonoptStart, nonoptEnd, consumed, skipped);
      DropFacts(nargv[..], optind);
      ghost var s0, start := State(), optind;
      code, index := ScanPlace(cfg);
      assert nargv[..] == s0.argv;
      if standing.Lost? {
        ScannedAstray(cfg, s0, State(), code, index);
        return;
      }
      ghost var used := (if optind <= |orig| then optind else |orig|) - start;
      consumed := consumed + orig[start..start + used];
      ScannedHere(cfg, s0, State(), code, index);
    }
  }

  // ---------------------------------------------------------------- what the moves come to

  lemma FinishedSorted(s: Scanner, t: Scanner)
    requires 1 <= s.optind <= |s.orig| && s.standing.Inside? && s.place == [] && 1 + |s.consumed| <= |t.argv|
    requires t.argv == Sorted(s.orig, s.optind, s.consumed, s.skipped)
    requires t == s.(argv := t.argv, optind := 1 + |s.consumed|, ns := -1, ne := -1, orig := t.argv,
                     consumed := t.argv[1..1 + |s.consumed|], skipped := [])
    ensures FinishedTo(s, t)
  {
    hide Laid, Sorted;
    Untouched(t.orig, t.optind);
  }

  lemma SkippingStarts(cfg: Config, s: Scanner)
    requires Ready(s) && s.place == []
    ensures Skipping(cfg, s, s, 0)
  {
    hide Skips, AllArgs, Permuting;
    LaidRest(s.argv, s.orig, s.optind, s.ns, s.ne, s.consumed, s.skipped);
    hide Laid;
    assert s.orig[s.optind..][0..] == s.orig[s.optind..];
    assert s.skipped + s.orig[s.optind..s.optind + 0] == s.skipped;
  }

  lemma SkippingFacts(cfg: Config, s: Scanner, t: Scanner, m: nat)
    requires Skipping(cfg, s, t, m)
    ensures InOrder(t) && (t.ne != -1 ==> t.ne < t.optind) && t.orig == s.orig
    ensures 1 <= t.optind <= |t.orig| == |t.argv| && (t.optind < |t.argv| ==> t.argv[t.optind] == t.orig[t.optind])
  {
    LaidRest(t.argv, t.orig, t.optind, t.ns, t.ne, t.consumed, t.skipped);
    hide Laid, Skips, AllArgs, Permuting;
  }

  lemma SkippingMore(cfg: Config, s: Scanner, u: Scanner, t: Scanner, m: nat)
    requires Skipping(cfg, s, u, m) && SkippedOne(u, t) && NonOption(cfg, u.orig[u.optind]) && !AllArgs(cfg)
        && Permuting(cfg)
    ensures Skipping(cfg, s, t, m + 1) && t.optind == u.optind + 1
  {
    hide Laid, Skips, NonOption, AllArgs, Permuting;
    var rest := s.orig[s.optind..];
    assert rest[m] == s.orig[s.optind + m];
    MoveOn(cfg, rest, m);
    assert s.orig[s.optind..s.optind + m] + [s.orig[s.optind + m]] == s.orig[s.optind..s.optind + (m + 1)];
    assert s.skipped + s.orig[s.optind..s.optind + m] + [s.orig[s.optind + m]]
        == s.skipped + (s.orig[s.optind..s.optind + m] + [s.orig[s.optind + m]]);
  }

  lemma SkippingEnds(cfg: Config, s: Scanner, t: Scanner, m: nat)
    requires Skipping(cfg, s, t, m)
    requires t.optind < |t.orig| && NonOption(cfg, t.orig[t.optind]) ==> AllArgs(cfg) || !Permuting(cfg)
    ensures SkippedTo(cfg, s, t, m)
  {
    hide Laid, Skips, NonOption, AllArgs, Permuting;
    var rest := s.orig[s.optind..];
    MoveOn(cfg, rest, m);
    assert m < |rest| ==> rest[m] == s.orig[s.optind + m];
    if AllArgs(cfg) || !Permuting(cfg) {
      assert m == 0;
    }
  }

  lemma SkippedFacts(cfg: Config, s: Scanner, t: Scanner, m: nat)
    requires SkippedTo(cfg, s, t, m)
    ensures InOrder(t) && (t.ne != -1 ==> t.ne < t.optind) && 1 <= t.optind == s.optind + m <= |t.orig| == |t.argv|
    ensures t.optind < |t.argv| ==> t.argv[t.optind] == t.orig[t.optind]
    ensures t == s.(argv := t.argv, optind := t.optind, ns := t.ns, ne := t.ne, skipped := t.skipped)
  {
    LaidRest(t.argv, t.orig, t.optind, t.ns, t.ne, t.consumed, t.skipped);
    hide Laid;
  }

  /** Where a non-option is left in front nothing was skipped. */
  lemma LeftInFront(cfg: Config, s: Scanner, t: Scanner, m: nat)
    requires SkippedTo(cfg, s, t, m) && Ready(s) && s.optind + m < |s.orig| && NonOption(cfg, s.orig[s.optind + m])
    ensures m == 0 && t == s && (t.ns == -1 || t.ne != -1)
  {
    hide Passed, Laid, NonOption;
    assert s.orig[s.optind..][m] == s.orig[s.optind + m];
    PassedNothing(cfg, s.orig[s.optind..]);
  }

  lemma UsedFacts(s: Scanner, t: Scanner)
    requires UsedOne(s, t)
    ensures InOrder(t) && (t.ne != -1 ==> t.ne < t.optind) && t.place == s.place
  {
  }

  lemma MovedToEnd(cfg: Config, s: Scanner, u: Scanner, t: Scanner, m: nat)
    requires SkippedTo(cfg, s, u, m) && s.place == [] && s.optarg == None && s.optind + m == |s.orig|
    requires FinishedTo(u, t)
    ensures Moved(cfg, s, t, Some(-1), m)
  {
    hide Passed, Sorted, Laid;
    assert s.orig[s.optind + m..s.optind + m + 0] == [] && s.consumed + [] == s.consumed;
  }

  lemma MovedByTaking(cfg: Config, s: Scanner, u: Scanner, t: Scanner, m: nat)
    requires SkippedTo(cfg, s, u, m) && s.place == [] && s.optind + m < |s.orig| && Ready(s)
    requires NonOption(cfg, s.orig[s.optind + m]) && AllArgs(cfg)
    requires UsedOne(u.(optarg := Some(s.orig[s.optind + m])), t)
    ensures Moved(cfg, s, t, Some(INORDER), m)
  {
    hide Passed, Laid, NonOption, AllArgs, Permuting;
    assert s.orig[s.optind..][m] == s.orig[s.optind + m];
    PassedNothing(cfg, s.orig[s.optind..]);
    LaidRest(s.argv, s.orig, s.optind, s.ns, s.ne, s.consumed, s.skipped);
    assert s.skipped + s.orig[s.optind..s.optind + 0] == s.skipped;
  }

  lemma MovedNowhere(cfg: Config, s: Scanner, t: Scanner, m: nat)
    requires SkippedTo(cfg, s, t, m) && s.place == [] && s.optind + m < |s.orig| && Ready(s)
    requires NonOption(cfg, s.orig[s.optind + m]) && !AllArgs(cfg)
    ensures Moved(cfg, s, t, Some(-1), m)
  {
    hide Passed, Laid, NonOption, AllArgs, Permuting, Ready;
    assert s.orig[s.optind..][m] == s.orig[s.optind + m];
    PassedNothing(cfg, s.orig[s.optind..]);
  }

  /** Where a non-option is left in front nothing was passed. */
  lemma PassedNothing(cfg: Config, rest: seq<cstring>)
    ensures var m := Passed(cfg, rest);
            m < |rest| && NonOption(cfg, rest[m]) ==> m == 0 && (AllArgs(cfg) || !Permuting(cfg))
  {
  }

  lemma MovedToDashes(cfg: Config, s: Scanner, u: Scanner, v: Scanner, t: Scanner, m: nat)
    requires SkippedTo(cfg, s, u, m) && s.place == [] && s.optarg == None && s.optind + m < |s.orig|
    requires s.orig[s.optind + m] == [DASH, DASH]
    requires UsedOne(u.(ne := v.ne), v) && FinishedTo(v, t)
    ensures Moved(cfg, s, t, Some(-1), m)
  {
    hide Passed, Sorted, Laid;
    assert s.orig[s.optind..][m] == s.orig[s.optind + m];
    assert |s.orig[s.optind + m..s.optind + m + 1]| == 1;
  }

  lemma MovedToOption(cfg: Config, s: Scanner, u: Scanner, t: Scanner, m: nat)
    requires SkippedTo(cfg, s, u, m) && s.place == [] && s.optarg == None && s.optind + m < |s.orig| && Ready(s)
    requires var arg := s.orig[s.optind + m];
             !NonOption(cfg, arg) && arg != [DASH, DASH] && arg != []
             && t == u.(place := FirstPlace(arg), ne := if u.ns != -1 && u.ne == -1 then u.optind else u.ne)
    requires InOrder(t)
    ensures Moved(cfg, s, t, None, m)
  {
    hide Passed, Laid, NonOption, AllArgs, Permuting, FirstPlace;
    assert s.orig[s.optind..][m] == s.orig[s.optind + m];
    assert s.orig[s.optind + m..s.optind + m + 0] == [] && s.consumed + [] == s.consumed;
    LaidRest(s.argv, s.orig, s.optind, s.ns, s.ne, s.consumed, s.skipped);
  }

  // ---------------------------------------------------------------- what the calls come to

  lemma ScannedHere(cfg: Config, s: Scanner, t: Scanner, code: int, index: Option<nat>)
    requires Scannable(cfg, s) && InOrder(s) && (s.ns == -1 || s.ne != -1)
    requires var r := ScanAt(cfg, s.orig[s.optind..], s.place, s.standing.Behind?);
             && !r.standing.Lost? && t.standing == r.standing && Stored(s, t, r, code, index)
             && var fits := if s.optind + r.used <= |s.orig| then r.used else |s.orig| - s.optind;
                t == s.(optind := s.optind + r.used, place := t.place, optarg := t.optarg, optopt := t.optopt,
                           flags := t.flags, standing := t.standing,
                           consumed := s.consumed + s.orig[s.optind..s.optind + fits])
    ensures ScannedFrom(cfg, s, t, code, index)
  {
    hide ScanAt, Laid, Usable, Suffix, Letters;
    LaidRest(s.argv, s.orig, s.optind, s.ns, s.ne, s.consumed, s.skipped);
    var used := ScanAt(cfg, s.orig[s.optind..], s.place, s.standing.Behind?).used;
    var fits := if s.optind + used <= |s.orig| then used else |s.orig| - s.optind;
    hide FiledAs;
    UsedAreFiled(s, t.(optind := s.optind + fits), fits);
    if used == fits {
      ScannedIsUsable(cfg, s, t);
    }
  }

  lemma UsedAreFiled(s: Scanner, t: Scanner, used: nat)
    requires InOrder(s) && (s.ns == -1 || s.ne != -1) && 1 <= s.optind && s.optind + used <= |s.orig|
    requires t.optind == s.optind + used && t.consumed == s.consumed + s.orig[s.optind..s.optind + used]
    requires t.argv == s.argv && t.orig == s.orig && t.skipped == s.skipped && t.ns == s.ns && t.ne == s.ne
    ensures FiledAs(s, t, 0, used) && InOrder(t)
  {
    hide Laid;
    UseSome(s.argv, s.orig, s.optind, s.ns, s.ne, s.consumed, s.skipped, used);
    assert s.skipped + s.orig[s.optind..s.optind + 0] == s.skipped;
  }

  /** Arguments or characters of one were used, so the next call finds its place. */
  lemma ScannedIsUsable(cfg: Config, s: Scanner, t: Scanner)
    requires Scannable(cfg, s) && InOrder(s) && (s.ns == -1 || s.ne != -1) && InOrder(t)
    requires var r := ScanAt(cfg, s.orig[s.optind..], s.place, s.standing.Behind?);
             && !r.standing.Lost? && t.standing == r.standing && t.place == r.place && t.optind == s.optind + r.used
             && t.ns == s.ns && t.ne == s.ne && t.argv == s.argv && t.orig == s.orig
    ensures t.optind > s.optind || t.place != [] ==> Usable(t)
  {
    hide ScanAt, Laid, Letters;
    LaidRest(s.argv, s.orig, s.optind, s.ns, s.ne, s.consumed, s.skipped);
    if t.place != [] && t.standing.Inside? {
      SuffixOfSuffix(s.place, s.orig[s.optind]);
    }
  }

  lemma SuffixOfSuffix(place: cstring, arg: cstring)
    requires Suffix(place, arg) && |place| > 1
    ensures Suffix(place[1..], arg) && |place[1..]| < |arg|
  {
  }

  lemma ScannedAstray(cfg: Config, s: Scanner, t: Scanner, code: int, index: Option<nat>)
    requires Scannable(cfg, s) && t.standing.Lost?
    requires ScanAt(cfg, s.orig[s.optind..], s.place, s.standing.Behind?).standing.Lost?
    ensures ScannedFrom(cfg, s, t, code, index)
  {
    hide ScanAt;
  }

  lemma PlaceIsScannable(cfg: Config, s: Scanner)
    requires Usable(s) && s.place != []
    ensures Scannable(cfg, s)
    ensures s.standing.Inside? ==> |s.place| < |s.orig[s.optind]|
  {
    LaidRest(s.argv, s.orig, s.optind, s.ns, s.ne, s.consumed, s.skipped);
  }

  lemma CalledInside(cfg: Config, s: Scanner, t: Scanner, code: int, index: Option<nat>)
    requires Usable(s) && s.place != [] && Scannable(cfg, s)
    requires s.standing.Inside? ==> |s.place| < |s.orig[s.optind]|
    requires ScannedFrom(cfg, s.(optarg := None), t, code, index)
    ensures Called(cfg, s, t, code, index)
  {
    hide ScanAt, Laid, Suffix, Letters;
    LaidRest(s.argv, s.orig, s.optind, s.ns, s.ne, s.consumed, s.skipped);
  }

  lemma CalledToEnd(cfg: Config, s: Scanner, t: Scanner, answer: Option<int>, m: nat)
    requires Ready(s) && s.standing.Inside? && s.place == [] && answer.Some? && s.optind <= |s.orig|
    requires Moved(cfg, s.(optarg := None), t, answer, m)
    ensures Called(cfg, s, t, answer.value, None)
  {
    hide ScanOption, Laid, MoveOf, Sorted, Ready;
    CallCases(cfg, s.orig[s.optind..], s.place);
  }

  lemma OptionFacts(cfg: Config, s: Scanner, t: Scanner, m: nat)
    requires Ready(s) && s.optind <= |s.orig| && Moved(cfg, s, t, None, m)
    ensures InOrder(t) && (t.ns == -1 || t.ne != -1) && t.optarg == None
    ensures t.standing.Inside? && Scannable(cfg, t)
  {
    hide Laid, NonOption, Suffix, Letters, FirstPlace;
    var rest := s.orig[s.optind..];
    assert rest[m] == s.orig[s.optind + m];
    NonOptionFacts(cfg, rest[m]);
  }

  lemma CalledAtOption(cfg: Config, s: Scanner, u: Scanner, t: Scanner, m: nat, code: int, index: Option<nat>)
    requires Ready(s) && s.place == [] && s.optind <= |s.orig|
    requires Moved(cfg, s.(optarg := None), u, None, m)
    requires Scannable(cfg, u) && ScannedFrom(cfg, u, t, code, index) && t.ns == u.ns && t.ne == u.ne
    ensures Called(cfg, s, t, code, index)
  {
    hide ScanAt, Laid, Letters, FirstPlace, NonOption, MoveOf, FiledAs, Recent;
    CallCases(cfg, s.orig[s.optind..], []);
    RestOfRest(s.orig, s.optind, m);
    OpenFacts(cfg, s, u, m);
    var r := ScanAt(cfg, u.orig[u.optind..], u.place, false);
    if r.standing.Lost? {
    } else if u.optind + r.used <= |u.orig| {
      FiledTwice(s, u, t, m, r.used);
    } else {
      FiledTwice(s, u, t.(optind := |u.orig|), m, |u.orig| - u.optind);
    }
  }

  /** What `UpdatePlace` leaves at an option. */
  lemma OpenFacts(cfg: Config, s: Scanner, u: Scanner, m: nat)
    requires Ready(s) && s.optind <= |s.orig| && Moved(cfg, s.(optarg := None), u, None, m)
    ensures MoveOf(cfg, s.orig[s.optind..]) == Open(m) && u.place == FirstPlace(s.orig[s.optind + m])
    ensures s.optind + m < |s.orig| && u.orig == s.orig && u.optind == s.optind + m && u.standing.Inside?
    ensures u.optopt == s.optopt && u.flags == s.flags && FiledAs(s, u, m, 0)
    ensures (u.ns == -1 <==> s.ns == -1 && m == 0) && (m > 0 ==> Recent(u) == 0 && u.ns != -1)
  {
    hide Laid, NonOption, FirstPlace;
  }

  lemma FiledTwice(s: Scanner, u: Scanner, t: Scanner, m: nat, used: nat)
    requires FiledAs(s, u, m, 0) && FiledAs(u, t, 0, used) && (u.ns == -1 <==> s.ns == -1 && m == 0)
    requires m > 0 ==> Recent(u) == 0 && u.ns != -1
    ensures FiledAs(s, t, m, used)
  {
    hide Laid;
    assert s.orig[s.optind + m..s.optind + m + 0] == [] && s.consumed + [] == s.consumed;
    assert u.orig[u.optind..u.optind + 0] == [] && u.skipped + [] == u.skipped;
  }

  lemma PartOfRest<T>(s: seq<T>, from: nat, m: nat, used: nat)
    requires from + m + used <= |s|
    ensures s[from..][m..m + used] == s[from + m..from + m + used]
  {
  }

  lemma RestOfRest<T>(s: seq<T>, from: nat, m: nat)
    requires from + m <= |s|
    ensures s[from..][m..] == s[from + m..]
  {
  }

  lemma NonOptionFacts(cfg: Config, arg: cstring)
    requires !NonOption(cfg, arg)
    ensures arg != [] && Suffix(FirstPlace(arg), arg)
    ensures |FirstPlace(arg)| == |arg| ==> DASH in Letters(cfg)
  {
  }

  lemma CallCases(cfg: Config, rest: seq<cstring>, place: cstring)
    requires place != [] ==> rest != [] && |place| < |rest[0]|
    ensures var move := MoveOf(cfg, rest);
            if place != [] then CallOf(cfg, rest, place) == Answer(0, ScanOption(cfg, rest, place))
            else
              match move
              case End(m, d) => CallOf(cfg, rest, place) == Finished(m, d)
              case Stop => CallOf(cfg, rest, place) == Stopped
              case Take => CallOf(cfg, rest, place)
                == Answer(0, Scanned(INORDER, 1, [], Some(rest[0]), None, None, None, Inside))
              case Open(m) =>
                && !NonOption(cfg, rest[m])
                && var p := FirstPlace(rest[m]);
                   && Suffix(p, rest[m]) && (|p| == |rest[m]| ==> DASH in Letters(cfg))
                   && CallOf(cfg, rest, place) == Answer(m, ScanOption(cfg, rest[m..], p))
  {
    hide ScanOption, MoveOf;
    if MoveOf(cfg, rest).Open? {
      NonOptionFacts(cfg, rest[MoveOf(cfg, rest).skip]);
    }
  }

  lemma Untouched(s: seq<cstring>, optind: nat)
    requires 1 <= optind <= |s|
    ensures Laid(s, s, optind, -1, -1, s[1..optind], [])
  {
    var c := s[1..optind];
    assert c[..optind - 1] == c && c[optind - 1..] == [];
    assert s == s[..1] + c + [] + [] + s[optind..];
  }
}
