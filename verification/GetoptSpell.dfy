/**
 Options as a user writes them down: what the scanner answers for a letter, for a
 letter with an argument and for a long option, each in terms of the arguments
 themselves, and what a whole run makes of any list of them.
 */
module ArgScannerSpelling {
  import opened Optional
  import opened ArgScanner
  import opened ArgScannerRun

  // ---------------------------------------------------------------- what the tables say

  /** Letter `c` first stands at offset `k`, with the colons of `how` behind it. */
  predicate ListedAt(letters: cstring, c: cchar, k: nat, how: HasArg) {
    && k < |letters| && letters[k] == c && c !in letters[..k]
    && var one := k + 1 < |letters| && letters[k + 1] == 58;
       var two := k + 2 < |letters| && letters[k + 2] == 58;
       match how
       case NoArgument => !one
       case RequiredArgument => one && !two
       case OptionalArgument => one && two
  }

  /** `c` is an option letter, neither ':' nor '-' nor the 'W' of long options. */
  predicate Takes(cfg: Config, c: cchar, how: HasArg) {
    var letters := Letters(cfg);
    && c != 58 && c != 45
    && exists k :: 0 <= k < |letters| && ListedAt(letters, c, k, how)
        && !(cfg.longs.Some? && c == 87 && k + 1 < |letters| && letters[k + 1] == 59)
  }

  /** A '+' or '-' in front of the options is no letter, and selects the mode. */
  lemma Modes(letters: cstring, longs: Option<seq<LongOption>>, rest: seq<cstring>)
    requires letters != [] ==> letters[0] !in [43, 45]
    requires rest != [] && (rest[0] == [] || rest[0][0] != 45)
    ensures var cfg := Config(letters, longs, true);
            Letters(cfg) == letters && !AllArgs(cfg) && Permuting(cfg)
    ensures var cfg := Config([43] + letters, longs, true);
            Letters(cfg) == letters && !AllArgs(cfg) && CallOf(cfg, rest, []) == Stopped
    ensures var cfg := Config([45] + letters, longs, true);
            Letters(cfg) == letters
            && CallOf(cfg, rest, []) == Answer(0, Scanned(1, 1, [], Some(rest[0]), None, None, None, Inside))
  {
    assert ([43] + letters)[1..] == letters && ([45] + letters)[1..] == letters;
  }

  lemma TakesAt(cfg: Config, c: cchar, how: HasArg)
    requires Takes(cfg, c, how)
    ensures c != 58 && c != 45
    ensures ListedAt(Letters(cfg), c, IndexOf(Letters(cfg), c), how)
    ensures var k := IndexOf(Letters(cfg), c); !(cfg.longs.Some? && c == UPPER_W && Has(Letters(cfg), k + 1, SEMICOLON))
  {
    hide Letters, IndexOf;
    var letters := Letters(cfg);
    var k :| 0 <= k < |letters| && ListedAt(letters, c, k, how)
             && !(cfg.longs.Some? && c == 87 && k + 1 < |letters| && letters[k + 1] == 59);
    assert letters[..k + 1][k] == c;
    FoundAt(letters, c, k);
  }

  lemma FoundAt(s: cstring, c: cchar, k: nat)
    requires k < |s| && s[k] == c && c !in s[..k]
    ensures IndexOf(s, c) == k
  {
    hide IndexOf;
    forall i | 0 <= i < k ensures s[i] != c {
      assert s[..k][i] == s[i];
    }
  }

  /** `place` is where an option stands, inside the first argument. */
  predicate Scanning(cfg: Config, rest: seq<cstring>, place: cstring) {
    rest != [] && place != [] && |place| <= |rest[0]| && (|place| == |rest[0]| ==> 45 in Letters(cfg))
  }

  // ---------------------------------------------------------------- one letter

  lemma AtLetter(cfg: SteadyConfig, rest: seq<cstring>, place: cstring)
    requires Scanning(cfg, rest, place) && place[0] != 45
    ensures ScanOption(cfg, rest, place) == LetterOf(cfg, rest, place, None, Inside)
  {
    hide LetterOf, LongOf;
  }

  /** A letter without an argument: the scan stays in the argument while there is more. */
  lemma FlagAnswer(cfg: SteadyConfig, rest: seq<cstring>, c: cchar, p: cstring)
    requires Scanning(cfg, rest, [c] + p) && Takes(cfg, c, NoArgument)
    ensures ScanOption(cfg, rest, [c] + p)
         == Scanned(AsInt(c), if p == [] then 1 else 0, p, None, None, None, None, Inside)
  {
    hide Letters, Takes, AsInt, ScanOption;
    TakesAt(cfg, c, NoArgument);
    AtLetter(cfg, rest, [c] + p);
    assert ([c] + p)[1..] == p;
  }

  /** What follows the letter is its argument, whether it needs one or may have one. */
  lemma AttachedAnswer(cfg: SteadyConfig, rest: seq<cstring>, c: cchar, p: cstring, how: HasArg)
    requires Scanning(cfg, rest, [c] + p) && Takes(cfg, c, how) && !how.NoArgument? && p != []
    ensures ScanOption(cfg, rest, [c] + p) == Scanned(AsInt(c), 1, [], Some(p), None, None, None, Inside)
  {
    hide Letters, Takes, AsInt, ScanOption;
    TakesAt(cfg, c, how);
    AtLetter(cfg, rest, [c] + p);
    assert ([c] + p)[1..] == p;
  }

  /** With nothing behind it a needed argument is the next one, and both are used. */
  lemma SeparateAnswer(cfg: SteadyConfig, rest: seq<cstring>, c: cchar)
    requires Scanning(cfg, rest, [c]) && Takes(cfg, c, RequiredArgument) && |rest| > 1
    ensures ScanOption(cfg, rest, [c]) == Scanned(AsInt(c), 2, [], Some(rest[1]), None, None, None, Inside)
  {
    hide Letters, Takes, AsInt, ScanOption;
    TakesAt(cfg, c, RequiredArgument);
    AtLetter(cfg, rest, [c]);
  }

  /** Without a next argument the answer is ':' or '?', by the front of the letters. */
  lemma MissingAnswer(cfg: SteadyConfig, rest: seq<cstring>, c: cchar)
    requires Scanning(cfg, rest, [c]) && Takes(cfg, c, RequiredArgument) && |rest| == 1
    ensures ScanOption(cfg, rest, [c])
         == Scanned(if Letters(cfg)[0] == 58 then 58 else 63, 1, [], None, Some(AsInt(c)), None, None, Inside)
  {
    hide Letters, Takes, AsInt, ScanOption;
    TakesAt(cfg, c, RequiredArgument);
    AtLetter(cfg, rest, [c]);
  }

  /** With nothing behind it an optional argument is missing; the next one stays. */
  lemma OptionalAnswer(cfg: SteadyConfig, rest: seq<cstring>, c: cchar)
    requires Scanning(cfg, rest, [c]) && Takes(cfg, c, OptionalArgument)
    ensures ScanOption(cfg, rest, [c]) == Scanned(AsInt(c), 1, [], None, None, None, None, Inside)
  {
    hide Letters, Takes, AsInt, ScanOption;
    TakesAt(cfg, c, OptionalArgument);
    AtLetter(cfg, rest, [c]);
  }

  /** A ':' or a character that is no letter is answered '?', with itself in `optopt`. */
  lemma UnknownAnswer(cfg: SteadyConfig, rest: seq<cstring>, c: cchar, p: cstring)
    requires Scanning(cfg, rest, [c] + p) && c != 45 && (c == 58 || c !in Letters(cfg))
    ensures ScanOption(cfg, rest, [c] + p)
         == Scanned(63, if p == [] then 1 else 0, p, None, Some(AsInt(c)), None, None, Inside)
  {
    hide Letters, AsInt, ScanOption;
    AtLetter(cfg, rest, [c] + p);
    assert ([c] + p)[1..] == p;
  }

  /** A lone '-' is an option just where '-' is a letter, even if there are long options. */
  lemma LoneDash(cfg: SteadyConfig, rest: seq<cstring>, k: nat)
    requires ListedAt(Letters(cfg), 45, k, NoArgument)
    ensures CallOf(cfg, [[45]] + rest, [])
         == Answer(0, Scanned(45, 1, [], None, None, None, None, Inside))
  {
    var all := [[45]] + rest;
    FoundAt(Letters(cfg), 45, k);
    assert Letters(cfg)[k] == 45;
    assert !NonOption(cfg, [45]) && !Terminator([45]) && FirstPlace([45]) == [45];
    assert Passed(cfg, all) == 0 && all[0..] == all;
    hide Letters, NonOption;
  }

  // ---------------------------------------------------------------- one long option

  /** What stands behind the name: nothing, or a '=' and the value. */
  function Behind(value: Option<cstring>): cstring {
    match value
    case None => []
    case Some(v) => [61] + v
  }

  /** The scan is behind the first '-' of "--name" or "--name=value". */
  predicate AtName(cfg: Config, rest: seq<cstring>, name: cstring, value: Option<cstring>) {
    cfg.longs.Some? && 61 !in name && rest != [] && |rest[0]| > |[45] + (name + Behind(value))|
  }

  /** A long option stores its value where it has a variable, and answers it otherwise. */
  function CodeOf(o: LongOption): int {
    if o.flag.None? then o.val else 0
  }

  function StoreOf(o: LongOption): Option<(int, int)> {
    match o.flag
    case None => None
    case Some(variable) => Some((variable, o.val))
  }

  lemma NameEnds(name: cstring, value: Option<cstring>)
    requires 61 !in name
    ensures var s := name + Behind(value);
            && s[..IndexOf(s, EQUALS)] == name && (IndexOf(s, EQUALS) == |s| <==> value.None?)
            && IndexOf(s, EQUALS) == |name| && (value.Some? ==> s[|name| + 1..] == value.value)
  {
    hide IndexOf;
    EqualsBehind(name, Behind(value));
    if value.Some? {
      ValueBehind(name, value.value);
    }
  }

  lemma EqualsBehind(name: cstring, behind: cstring)
    requires 61 !in name && (behind == [] || behind[0] == 61)
    ensures IndexOf(name + behind, EQUALS) == |name| && (name + behind)[..|name|] == name
  {
    hide IndexOf;
    var s := name + behind;
    forall i | 0 <= i < |name| ensures s[i] != 61 {
      assert s[i] == name[i] && name[i] in name;
    }
    if behind != [] {
      assert s[|name|] == behind[0];
    }
  }

  lemma ValueBehind(name: cstring, v: cstring)
    ensures (name + ([61] + v))[|name| + 1..] == v
  {
  }

  lemma AtLongName(cfg: SteadyConfig, rest: seq<cstring>, name: cstring, value: Option<cstring>)
    requires AtName(cfg, rest, name, value)
    ensures var cur := name + Behind(value);
            Scanning(cfg, rest, [45] + cur) && ScanOption(cfg, rest, [45] + cur) == LongOf(cfg, rest, cur, None)
  {
    hide LetterOf, LongOf, Behind;
    assert ([45] + (name + Behind(value)))[1..] == name + Behind(value);
  }

  lemma MatchOf(longs: seq<LongOption>, name: cstring, m: Match)
    requires Means(longs, name, m)
    ensures LongMatch(longs, name) == m
  {
    hide Means, LongMatch;
    LongMatchMeans(longs, name);
    MeaningIsUnique(longs, name, m, LongMatch(longs, name));
  }

  /** "--name" of an option that needs no argument, "--name=value" of one that may have one. */
  lemma LongAnswer(cfg: SteadyConfig, rest: seq<cstring>, name: cstring, value: Option<cstring>, m: nat)
    requires AtName(cfg, rest, name, value) && m < |cfg.longs.value| && Means(cfg.longs.value, name, Matched(m))
    requires match cfg.longs.value[m].hasArg
             case NoArgument => value.None?
             case RequiredArgument => value.Some?
             case OptionalArgument => true
    ensures var o := cfg.longs.value[m];
            ScanOption(cfg, rest, [45] + (name + Behind(value)))
            == Scanned(CodeOf(o), 1, [], value, None, Some(m), StoreOf(o), Inside)
  {
    hide Means, LongMatch, Behind, ScanOption, IndexOf;
    AtLongName(cfg, rest, name, value);
    NameEnds(name, value);
    MatchOf(cfg.longs.value, name, Matched(m));
  }

  /** "--name" of an option that needs an argument: it is the next one. */
  lemma LongSeparateAnswer(cfg: SteadyConfig, rest: seq<cstring>, name: cstring, m: nat)
    requires AtName(cfg, rest, name, None) && m < |cfg.longs.value| && Means(cfg.longs.value, name, Matched(m))
    requires cfg.longs.value[m].hasArg.RequiredArgument? && |rest| > 1
    ensures var o := cfg.longs.value[m];
            ScanOption(cfg, rest, [45] + (name + Behind(None)))
            == Scanned(CodeOf(o), 2, [], Some(rest[1]), None, Some(m), StoreOf(o), Inside)
  {
    hide Means, LongMatch, Behind, ScanOption, IndexOf;
    AtLongName(cfg, rest, name, None);
    NameEnds(name, None);
    MatchOf(cfg.longs.value, name, Matched(m));
  }

  /** A value that is not taken, or one that is missing. */
  lemma LongRefusal(cfg: SteadyConfig, rest: seq<cstring>, name: cstring, value: Option<cstring>, m: nat)
    requires AtName(cfg, rest, name, value) && m < |cfg.longs.value| && Means(cfg.longs.value, name, Matched(m))
    requires match cfg.longs.value[m].hasArg
             case NoArgument => value.Some?
             case RequiredArgument => value.None? && |rest| == 1
             case OptionalArgument => false
    ensures var letters, o := Letters(cfg), cfg.longs.value[m];
            ScanOption(cfg, rest, [45] + (name + Behind(value)))
            == Scanned(if letters != [] && letters[0] == 58 then 58 else 63, 1, [], None, Some(CodeOf(o)), None, None,
                       Inside)
  {
    hide Means, LongMatch, Behind, ScanOption, IndexOf, Letters;
    AtLongName(cfg, rest, name, value);
    NameEnds(name, value);
    MatchOf(cfg.longs.value, name, Matched(m));
  }

  /** A name that means nothing, or more than one thing. */
  lemma LongUnknown(cfg: SteadyConfig, rest: seq<cstring>, name: cstring, value: Option<cstring>, m: Match)
    requires AtName(cfg, rest, name, value) && Means(cfg.longs.value, name, m) && !m.Matched?
    ensures ScanOption(cfg, rest, [45] + (name + Behind(value)))
         == Scanned(63, 1, [], None, Some(0), None, None, Inside)
  {
    hide Means, LongMatch, Behind, ScanOption, IndexOf;
    AtLongName(cfg, rest, name, value);
    NameEnds(name, value);
    MatchOf(cfg.longs.value, name, m);
  }

  // ---------------------------------------------------------------- "-W name"

  /** Letter 'W' announces long options. */
  predicate NamesByW(cfg: Config) {
    var letters := Letters(cfg);
    && cfg.longs.Some?
    && exists k ::
      0 <= k < |letters| - 1 && letters[k] == 87 && 87 !in letters[..k] && letters[k + 1] == 59
  }

  lemma WHasLongs(cfg: Config)
    requires NamesByW(cfg)
    ensures cfg.longs.Some?
  {
  }

  lemma AtW(cfg: SteadyConfig, rest: seq<cstring>, p: cstring)
    requires NamesByW(cfg) && Scanning(cfg, rest, [87] + p)
    ensures ScanOption(cfg, rest, [87] + p) == WOf(cfg, rest, p, None)
  {
    hide Letters, WOf, ScanOption;
    AtLetter(cfg, rest, [87] + p);
    var letters := Letters(cfg);
    var k :| 0 <= k < |letters| - 1 && letters[k] == 87 && 87 !in letters[..k] && letters[k + 1] == 59;
    FoundAt(letters, 87, k);
    assert ([87] + p)[1..] == p;
  }

  /** A long option depends on the arguments behind it alone. */
  lemma LongOfTail(cfg: Config, rest: seq<cstring>, rest': seq<cstring>, cur: cstring)
    requires cfg.longs.Some? && rest != [] && rest' != [] && rest[1..] == rest'[1..]
    ensures LongOf(cfg, rest, cur, None) == LongOf(cfg, rest', cur, None)
  {
    hide LongMatch, IndexOf;
    if |rest| > 1 {
      assert rest[1..][0] == rest'[1..][0];
    }
  }

  lemma DashesLong(cfg: SteadyConfig, cur: cstring, more: seq<cstring>)
    requires cfg.longs.Some?
    ensures ScanOption(cfg, [[45, 45] + cur] + more, [45] + cur) == LongOf(cfg, [[45, 45] + cur] + more, cur, None)
  {
    hide LetterOf, LongOf;
    assert ([45] + cur)[1..] == cur;
  }

  /** "-Wname" is answered like "--name". */
  lemma WAttached(cfg: SteadyConfig, rest: seq<cstring>, cur: cstring)
    requires NamesByW(cfg) && cur != [] && Scanning(cfg, rest, [87] + cur)
    ensures ScanOption(cfg, rest, [87] + cur) == ScanOption(cfg, [[45, 45] + cur] + rest[1..], [45] + cur)
  {
    hide ScanOption, LongOf, NamesByW;
    AtW(cfg, rest, cur);
    WHasLongs(cfg);
    DashesLong(cfg, cur, rest[1..]);
    LongOfTail(cfg, rest, [[45, 45] + cur] + rest[1..], cur);
  }

  /** "-W name" is answered like "--name", with one argument more. */
  lemma WSeparate(cfg: SteadyConfig, rest: seq<cstring>)
    requires NamesByW(cfg) && |rest| > 1 && Scanning(cfg, rest, [87])
    ensures var r := ScanOption(cfg, [[45, 45] + rest[1]] + rest[2..], [45] + rest[1]);
            ScanOption(cfg, rest, [87]) == r.(used := r.used + 1)
  {
    hide ScanOption, LongOf, NamesByW;
    assert [87] + [] == [87];
    AtW(cfg, rest, []);
    WHasLongs(cfg);
    DashesLong(cfg, rest[1], rest[2..]);
    LongOfTail(cfg, rest[1..], [[45, 45] + rest[1]] + rest[2..], rest[1]);
  }

  lemma WMissing(cfg: SteadyConfig, rest: seq<cstring>)
    requires NamesByW(cfg) && |rest| == 1 && Scanning(cfg, rest, [87])
    ensures ScanOption(cfg, rest, [87])
         == Scanned(if Letters(cfg)[0] == 58 then 58 else 63, 1, [], None, Some(87), None, None, Inside)
  {
    hide ScanOption, LongOf, Letters;
    assert [87] + [] == [87];
    AtW(cfg, rest, []);
  }

  // ---------------------------------------------------------------- lists of options

  /** How a cluster of letters ends: with a letter and its argument, or bare. */
  datatype Last = Bare | Attached(c: cchar, arg: cstring) | Separate(c: cchar, arg: cstring) | Without(c: cchar)

  datatype Item =
    | Word(arg: cstring)
    | Cluster(flags: cstring, last: Last)
    | Long(name: cstring, value: Option<cstring>, index: nat)
    | LongSeparate(name: cstring, arg: cstring, index: nat)

  ghost predicate LastFits(cfg: Config, last: Last) {
    match last
    case Bare => true
    case Attached(c, arg) => arg != [] && (Takes(cfg, c, RequiredArgument) || Takes(cfg, c, OptionalArgument))
    case Separate(c, _) => Takes(cfg, c, RequiredArgument)
    case Without(c) => Takes(cfg, c, OptionalArgument)
  }

  ghost predicate AllFlags(cfg: Config, flags: cstring) {
    forall k :: 0 <= k < |flags| ==> Takes(cfg, flags[k], NoArgument)
  }

  ghost predicate Names(cfg: Config, name: cstring, index: nat) {
    cfg.longs.Some? && 61 !in name && index < |cfg.longs.value| && Means(cfg.longs.value, name, Matched(index))
  }

  /** The item can be written down for this table. */
  ghost predicate Fits(cfg: Config, item: Item) {
    match item
    case Word(arg) => arg == [] || arg[0] != 45 || (arg == [45] && 45 !in Letters(cfg))
    case Cluster(flags, last) => (flags != [] || !last.Bare?) && AllFlags(cfg, flags) && LastFits(cfg, last)
    case Long(name, value, index) =>
      && Names(cfg, name, index) && (name != [] || value.Some?)
      && (cfg.longs.value[index].hasArg.NoArgument? ==> value.None?)
      && (cfg.longs.value[index].hasArg.RequiredArgument? ==> value.Some?)
    case LongSeparate(name, _, index) =>
      name != [] && Names(cfg, name, index) && cfg.longs.value[index].hasArg.RequiredArgument?
  }

  ghost predicate AllFit(cfg: Config, items: seq<Item>) {
    forall k :: 0 <= k < |items| ==> Fits(cfg, items[k])
  }

  function LastText(last: Last): cstring {
    match last
    case Bare => []
    case Attached(c, arg) => [c] + arg
    case Separate(c, _) => [c]
    case Without(c) => [c]
  }

  function LastArguments(last: Last): seq<cstring> {
    if last.Separate? then [last.arg] else []
  }

  /** The arguments that spell an item. */
  function Spell(item: Item): (r: seq<cstring>)
    ensures r != []
  {
    match item
    case Word(arg) => [arg]
    case Cluster(flags, last) => [[45] + (flags + LastText(last))] + LastArguments(last)
    case Long(name, value, _) => [[45] + ([45] + (name + Behind(value)))]
    case LongSeparate(name, arg, _) => [[45] + ([45] + (name + Behind(None)))] + [arg]
  }

  function FlagAnswers(flags: cstring): seq<(int, Option<cstring>)> {
    if flags == [] then [] else [(AsInt(flags[0]), None)] + FlagAnswers(flags[1..])
  }

  function LastAnswers(last: Last): seq<(int, Option<cstring>)> {
    match last
    case Bare => []
    case Attached(c, arg) => [(AsInt(c), Some(arg))]
    case Separate(c, arg) => [(AsInt(c), Some(arg))]
    case Without(c) => [(AsInt(c), None)]
  }

  /** What an item says: codes with their arguments. */
  function Says(cfg: Config, item: Item): seq<(int, Option<cstring>)>
    requires item.Long? || item.LongSeparate? ==> cfg.longs.Some? && item.index < |cfg.longs.value|
  {
    match item
    case Word(_) => []
    case Cluster(flags, last) => FlagAnswers(flags) + LastAnswers(last)
    case Long(_, value, index) => [(CodeOf(cfg.longs.value[index]), value)]
    case LongSeparate(_, arg, index) => [(CodeOf(cfg.longs.value[index]), Some(arg))]
  }

  function SpellAll(items: seq<Item>): seq<cstring> {
    if items == [] then [] else Spell(items[0]) + SpellAll(items[1..])
  }

  ghost function SayAll(cfg: Config, items: seq<Item>): seq<(int, Option<cstring>)>
    requires AllFit(cfg, items)
  {
    if items == [] then [] else Says(cfg, items[0]) + SayAll(cfg, items[1..])
  }

  /** The arguments of the options, and those that are words. */
  function UsedBy(item: Item): seq<cstring> {
    if item.Word? then [] else Spell(item)
  }

  function WordsOf(item: Item): seq<cstring> {
    if item.Word? then [item.arg] else []
  }

  function UsedByAll(items: seq<Item>): seq<cstring> {
    if items == [] then [] else UsedBy(items[0]) + UsedByAll(items[1..])
  }

  function AllWords(items: seq<Item>): seq<cstring> {
    if items == [] then [] else WordsOf(items[0]) + AllWords(items[1..])
  }

  // ---------------------------------------------------------------- the run over a list

  /** Tables of a run that moves the words behind the options. */
  ghost predicate Sorting(cfg: SteadyConfig) {
    Sound(cfg) && Permuting(cfg) && !AllArgs(cfg)
  }

  /** From `place` in `rest` on, the run answers `said` and files `used` and `words`
      before it comes to `tail`. */
  ghost predicate Leads(cfg: SteadyConfig, rest: seq<cstring>, place: cstring, said: seq<(int, Option<cstring>)>,
        used: seq<cstring>, words: seq<cstring>, tail: seq<cstring>, next: cstring)
    requires Sorting(cfg)
  {
    && (place != [] ==> rest != [] && |place| < |rest[0]|)
    && (next != [] ==> tail != [] && |next| < |tail[0]|)
    && Answers(cfg, rest, place) == said + Answers(cfg, tail, next)
    && View(cfg, rest, place) == Before(used, words, View(cfg, tail, next))
  }

  lemma LeadsOn(cfg: SteadyConfig, r1: seq<cstring>, p1: cstring, s1: seq<(int, Option<cstring>)>, u1: seq<cstring>,
        w1: seq<cstring>, r2: seq<cstring>, p2: cstring, s2: seq<(int, Option<cstring>)>, u2: seq<cstring>,
        w2: seq<cstring>, r3: seq<cstring>, p3: cstring)
    requires Sorting(cfg) && Leads(cfg, r1, p1, s1, u1, w1, r2, p2) && Leads(cfg, r2, p2, s2, u2, w2, r3, p3)
    ensures Leads(cfg, r1, p1, s1 + s2, u1 + u2, w1 + w2, r3, p3)
  {
    hide Sound, Permuting, AllArgs, Answers, View, Before;
    BeforeTwice(u1, w1, u2, w2, View(cfg, r3, p3));
    Reassociate(s1, s2, Answers(cfg, r3, p3));
  }

  lemma Reassociate<T>(a: seq<T>, b: seq<T>, c: seq<T>)
    ensures a + (b + c) == a + b + c
  {
  }

  /** One answer inside an argument. */
  lemma Turn(cfg: SteadyConfig, rest: seq<cstring>, place: cstring)
    requires Sorting(cfg) && rest != [] && place != [] && |place| < |rest[0]|
    requires var s := ScanOption(cfg, rest, place); s.used > 0 || s.place != []
    ensures var s := ScanOption(cfg, rest, place);
            Leads(cfg, rest, place, [(s.code, s.optarg)], rest[..s.used], [], rest[s.used..], s.place)
  {
    hide Sound, Permuting, AllArgs, View, Before, Answers, ScanOption, Left;
    var s := ScanOption(cfg, rest, place);
    CallCases(cfg, rest, place);
    AnswerUses(cfg, rest, place);
    TurnOfRun(cfg, rest, place, [], []);
    BeforeNothing(View(cfg, rest, place));
    TurnBlocks(rest, s.used);
  }

  lemma TurnBlocks(rest: seq<cstring>, used: nat)
    requires used <= |rest|
    ensures [] + rest[0..0 + used] == rest[..used] && [] + rest[..0] == [] && rest[0 + used..] == rest[used..]
  {
  }

  /** A call that starts at an option goes on as if it stood behind the '-'. */
  lemma Enter(cfg: SteadyConfig, rest: seq<cstring>, p: cstring)
    requires Sorting(cfg) && rest != [] && p != [] && rest[0] == [45] + p && p != [45]
    ensures Leads(cfg, rest, [], [], [], [], rest, p)
  {
    hide Sound, View, Before, Answers;
    var arg := rest[0];
    assert |arg| > 1 && arg[0] == 45 && arg[1..] == p && !NonOption(cfg, arg);
    assert !Terminator(arg);
    ViewEntered(cfg, rest, p);
    AnswersEntered(cfg, rest, p);
    BeforeNothing(View(cfg, rest, p));
    assert [] + Answers(cfg, rest, p) == Answers(cfg, rest, p);
  }

  lemma ViewEntered(cfg: SteadyConfig, rest: seq<cstring>, p: cstring)
    requires rest != [] && p != [] && |p| < |rest[0]| && FirstPlace(rest[0]) == p
    requires !NonOption(cfg, rest[0]) && !Terminator(rest[0])
    ensures View(cfg, rest, []) == View(cfg, rest, p)
  {
    hide NonOption, Terminator, FirstPlace, Marks, MarksFrom, Stuck, StuckFrom, OutlookOf;
    ViewAtOption(cfg, rest);
  }

  lemma AnswersEntered(cfg: SteadyConfig, rest: seq<cstring>, p: cstring)
    requires Sorting(cfg) && rest != [] && p != [] && |p| < |rest[0]| && FirstPlace(rest[0]) == p
    requires !NonOption(cfg, rest[0]) && !Terminator(rest[0])
    ensures Answers(cfg, rest, []) == Answers(cfg, rest, p)
  {
    hide NonOption, Terminator, FirstPlace, Sound, ScanOption, CallOf;
    CallEntered(cfg, rest, p);
  }

  lemma CallEntered(cfg: SteadyConfig, rest: seq<cstring>, p: cstring)
    requires Permuting(cfg) && !AllArgs(cfg) && rest != [] && p != [] && |p| < |rest[0]| && FirstPlace(rest[0]) == p
    requires !NonOption(cfg, rest[0]) && !Terminator(rest[0])
    ensures CallOf(cfg, rest, []) == CallOf(cfg, rest, p)
  {
    hide NonOption, Terminator, FirstPlace, ScanOption, Permuting, AllArgs;
    assert Skips(cfg, rest) == 0;
    assert rest[0..] == rest;
  }

  /** A word is passed over. */
  lemma WordLeads(cfg: SteadyConfig, arg: cstring, tail: seq<cstring>)
    requires Sorting(cfg) && Fits(cfg, Word(arg))
    ensures Leads(cfg, [arg] + tail, [], [], [], [arg], tail, [])
  {
    hide Sound, Before, View, Permuting, AllArgs, Answers;
    assert NonOption(cfg, arg);
    WordView(cfg, arg, tail);
    WordAnswers(cfg, arg, tail);
    assert [] + Answers(cfg, tail, []) == Answers(cfg, tail, []);
  }

  lemma WordView(cfg: SteadyConfig, arg: cstring, tail: seq<cstring>)
    requires NonOption(cfg, arg)
    ensures View(cfg, [arg] + tail, []) == Before([], [arg], View(cfg, tail, []))
  {
    hide NonOption, Keep, Same;
    var rest := [arg] + tail;
    assert rest[1..] == tail && rest[..1] == [arg];
    OneMark();
    OutlookOfSame(rest, 1, false, Marks(cfg, tail), Stuck(cfg, tail));
  }

  lemma OneMark()
    ensures Same(1, false) == [false]
  {
  }

  lemma WordAnswers(cfg: SteadyConfig, arg: cstring, tail: seq<cstring>)
    requires Sorting(cfg) && NonOption(cfg, arg)
    ensures Answers(cfg, [arg] + tail, []) == Answers(cfg, tail, [])
  {
    hide NonOption, Sound, CallOf, Permuting, AllArgs;
    var rest := [arg] + tail;
    WordCall(cfg, arg, tail);
    var r := CallOf(cfg, tail, []);
    if r.Answer? {
      RestOfRest(rest, 1, r.skip + r.scanned.used);
      assert rest[1..] == tail;
    }
  }

  /** A word in front makes a call skip one more. */
  lemma WordCall(cfg: SteadyConfig, arg: cstring, tail: seq<cstring>)
    requires Permuting(cfg) && !AllArgs(cfg) && NonOption(cfg, arg)
    ensures var r, s := CallOf(cfg, tail, []), CallOf(cfg, [arg] + tail, []);
            match r
            case Finished(m, d) => s == Finished(m + 1, d)
            case Stopped => false
            case Answer(m, a) => s == Answer(m + 1, a)
  {
    hide NonOption, ScanOption, Permuting, AllArgs, Terminator, FirstPlace;
    var rest := [arg] + tail;
    assert rest[1..] == tail;
    var m := Skips(cfg, tail);
    assert Skips(cfg, rest) == m + 1;
    if m < |tail| {
      assert rest[m + 1] == tail[m] && rest[m + 1..] == tail[m..];
    }
  }

  /** The letters of a cluster from some place on. */
  lemma {:induction false} ClusterLeads(cfg: SteadyConfig, arg: cstring, flags: cstring, last: Last, tail: seq<cstring>)
    requires Sorting(cfg) && AllFlags(cfg, flags) && LastFits(cfg, last) && (flags != [] || !last.Bare?)
    requires |flags + LastText(last)| < |arg|
    ensures Leads(cfg, [arg] + LastArguments(last) + tail, flags + LastText(last),
        FlagAnswers(flags) + LastAnswers(last),
                  [arg] + LastArguments(last), [], tail, [])
    decreases |flags|
  {
    hide Sorting, Leads, LastFits, Takes, ScanOption;
    if flags == [] {
      LastLeads(cfg, arg, last, tail);
      assert flags + LastText(last) == LastText(last) && FlagAnswers(flags) + LastAnswers(last) == LastAnswers(last);
    } else {
      var rest, p := [arg] + LastArguments(last) + tail, flags[1..] + LastText(last);
      assert flags + LastText(last) == [flags[0]] + p;
      FlagAnswer(cfg, rest, flags[0], p);
      Turn(cfg, rest, [flags[0]] + p);
      if p == [] {
        BareEnds(flags, last);
        assert rest[..1] == [arg] && rest[1..] == tail;
        assert [arg] + LastArguments(last) == [arg];
      } else {
        ClusterLeads(cfg, arg, flags[1..], last, tail);
        assert rest[..0] == [] && rest[0..] == rest;
        LeadsOn(cfg, rest, [flags[0]] + p, [(AsInt(flags[0]), None)], [], [], rest, p,
                FlagAnswers(flags[1..]) + LastAnswers(last), [arg] + LastArguments(last), [], tail, []);
        FlagsOn(flags, last);
        NothingInFront([arg] + LastArguments(last));
      }
    }
  }

  lemma NothingInFront(used: seq<cstring>)
    ensures [] + used == used
    ensures var none: seq<cstring> := []; none + none == none
  {
  }

  lemma BareEnds(flags: cstring, last: Last)
    requires flags != [] && flags[1..] + LastText(last) == []
    ensures last == Bare && FlagAnswers(flags) + LastAnswers(last) == [(AsInt(flags[0]), None)]
  {
    assert flags[1..] == [];
  }

  lemma FlagsOn(flags: cstring, last: Last)
    requires flags != []
    ensures FlagAnswers(flags) + LastAnswers(last)
         == [(AsInt(flags[0]), None)] + (FlagAnswers(flags[1..]) + LastAnswers(last))
  {
  }

  lemma LastLeads(cfg: SteadyConfig, arg: cstring, last: Last, tail: seq<cstring>)
    requires Sorting(cfg) && LastFits(cfg, last) && !last.Bare? && |LastText(last)| < |arg|
    ensures Leads(cfg, [arg] + LastArguments(last) + tail, LastText(last), LastAnswers(last),
                  [arg] + LastArguments(last), [], tail, [])
  {
    hide Sorting, Leads, Takes, ScanOption;
    var rest := [arg] + LastArguments(last) + tail;
    match last {
      case Attached(c, value) =>
        AttachedAnswer(cfg, rest, c, value,
                       if Takes(cfg, c, RequiredArgument) then RequiredArgument else OptionalArgument);
      case Separate(c, value) =>
        SeparateAnswer(cfg, rest, c);
        assert rest[1] == value;
      case Without(c) => OptionalAnswer(cfg, rest, c);
    }
    Turn(cfg, rest, LastText(last));
    var k := |[arg] + LastArguments(last)|;
    assert k == ScanOption(cfg, rest, LastText(last)).used;
    assert rest[..k] == [arg] + LastArguments(last) && rest[k..] == tail;
  }

  lemma LongLeads(cfg: SteadyConfig, item: Item, tail: seq<cstring>)
    requires Sorting(cfg) && Fits(cfg, item) && (item.Long? || item.LongSeparate?)
    ensures Leads(cfg, Spell(item) + tail, [], Says(cfg, item), Spell(item), [], tail, [])
  {
    hide Sorting, Leads, ScanOption, Means, Behind;
    var rest := Spell(item) + tail;
    var value := if item.Long? then item.value else None;
    var p := [45] + (item.name + Behind(value));
    NotBare(item.name, value);
    Enter(cfg, rest, p);
    if item.Long? {
      LongAnswer(cfg, rest, item.name, value, item.index);
    } else {
      LongSeparateAnswer(cfg, rest, item.name, item.index);
    }
    Turn(cfg, rest, p);
    assert rest[..|Spell(item)|] == Spell(item) && rest[|Spell(item)|..] == tail;
    LeadsOn(cfg, rest, [], [], [], [], rest, p, Says(cfg, item), Spell(item), [], tail, []);
    NothingInFront(Spell(item));
    assert [] + Says(cfg, item) == Says(cfg, item);
  }

  lemma NotBare(name: cstring, value: Option<cstring>)
    requires name != [] || value.Some?
    ensures name + Behind(value) != []
  {
  }

  lemma ItemLeads(cfg: SteadyConfig, item: Item, tail: seq<cstring>)
    requires Sorting(cfg) && Fits(cfg, item)
    ensures Leads(cfg, Spell(item) + tail, [], Says(cfg, item), UsedBy(item), WordsOf(item), tail, [])
  {
    hide Sorting, Leads, Names, AllFlags, LastFits;
    match item {
      case Word(arg) => WordLeads(cfg, arg, tail);
      case Cluster(flags, last) =>
        var rest, p := Spell(item) + tail, flags + LastText(last);
        ClusterStarts(cfg, flags, last);
        Enter(cfg, rest, p);
        ClusterLeads(cfg, [45] + p, flags, last, tail);
        LeadsOn(cfg, rest, [], [], [], [], rest, p, Says(cfg, item), Spell(item), [], tail, []);
        NothingInFront(Spell(item));
        assert [] + Says(cfg, item) == Says(cfg, item);
      case _ => LongLeads(cfg, item, tail);
    }
  }

  lemma ClusterStarts(cfg: Config, flags: cstring, last: Last)
    requires (flags != [] || !last.Bare?) && AllFlags(cfg, flags) && LastFits(cfg, last)
    ensures flags + LastText(last) != [] && (flags + LastText(last))[0] != 45
  {
    if flags != [] {
      assert Takes(cfg, flags[0], NoArgument);
    }
  }

  /** Any list of options and words is answered as it says, whatever follows. */
  lemma {:induction false} ListLeads(cfg: SteadyConfig, items: seq<Item>, tail: seq<cstring>)
    requires Sorting(cfg) && AllFit(cfg, items)
    ensures Leads(cfg, SpellAll(items) + tail, [], SayAll(cfg, items), UsedByAll(items), AllWords(items), tail, [])
    decreases |items|
  {
    hide Sorting, Leads, Fits, Spell, Says, UsedBy, WordsOf;
    if items == [] {
      LeadsNowhere(cfg, tail);
      assert [] + tail == tail;
    } else {
      var more := SpellAll(items[1..]) + tail;
      CanSay(cfg, items[0]);
      Reassociate(Spell(items[0]), SpellAll(items[1..]), tail);
      ItemLeads(cfg, items[0], more);
      ListLeads(cfg, items[1..], tail);
      LeadsOn(cfg, SpellAll(items) + tail, [], Says(cfg, items[0]), UsedBy(items[0]), WordsOf(items[0]), more, [],
              SayAll(cfg, items[1..]), UsedByAll(items[1..]), AllWords(items[1..]), tail, []);
    }
  }

  lemma CanSay(cfg: Config, item: Item)
    requires Fits(cfg, item)
    ensures item.Long? || item.LongSeparate? ==> cfg.longs.Some? && item.index < |cfg.longs.value|
  {
  }

  lemma LeadsNowhere(cfg: SteadyConfig, rest: seq<cstring>)
    requires Sorting(cfg)
    ensures Leads(cfg, rest, [], [], [], [], rest, [])
  {
    hide View, Answers;
    BeforeNothing(View(cfg, rest, []));
    assert [] + Answers(cfg, rest, []) == Answers(cfg, rest, []);
  }

  /** What ends a list: nothing, or "--" and words of any form. */
  function Ending(dashes: Option<seq<cstring>>): seq<cstring> {
    match dashes
    case None => []
    case Some(words) => [[45, 45]] + words
  }

  /** A run over a list of options and words answers just what the list says, leaves the
      options first and the words behind them, and `optind` at the first word. */
  lemma RunOfList(cfg: SteadyConfig, program: cstring, items: seq<Item>, dashes: Option<seq<cstring>>,
        argv: seq<cstring>, optind: nat)
    requires Sorting(cfg) && AllFit(cfg, items)
    requires RunTo(cfg, [program] + (SpellAll(items) + Ending(dashes)), argv, optind)
    ensures Answers(cfg, SpellAll(items) + Ending(dashes), []) == SayAll(cfg, items)
    ensures argv == [program] + UsedByAll(items) + (if dashes.Some? then [[45, 45]] else []) + AllWords(items)
        + (if dashes.Some? then dashes.value else [])
    ensures optind == 1 + |UsedByAll(items)| + if dashes.Some? then 1 else 0
  {
    hide Sorting, Fits, Spell, Says, UsedBy, WordsOf, View, Answers, Marks, Keep, Stuck, Partitioned, SpellAll;
    var rest := SpellAll(items) + Ending(dashes);
    var orig := [program] + rest;
    assert orig[1..] == rest && orig[..1] == [program];
    ListLeads(cfg, items, Ending(dashes));
    EndingView(cfg, dashes);
    PartitionedIsView(cfg, [program], rest);
    assert SayAll(cfg, items) + [] == SayAll(cfg, items);
    BeforeEnding(program, UsedByAll(items), AllWords(items), dashes, View(cfg, Ending(dashes), []));
  }

  lemma BeforeEnding(program: cstring, used: seq<cstring>, words: seq<cstring>, dashes: Option<seq<cstring>>,
        o: Outlook)
    requires o == Outlook(if dashes.Some? then [[45, 45]] else [], [], if dashes.Some? then dashes.value else [], false)
    ensures var b := Before(used, words, o);
            && !b.stuck && |b.used| == |used| + (if dashes.Some? then 1 else 0)
            && [program] + b.used + b.skipped + b.tail
               == [program] + used + (if dashes.Some? then [[45, 45]] else []) + words
                  + (if dashes.Some? then dashes.value else [])
  {
    Reassociate([program], used, o.used);
    assert words + [] == words;
  }

  lemma EndingView(cfg: SteadyConfig, dashes: Option<seq<cstring>>)
    requires Sorting(cfg)
    ensures View(cfg, Ending(dashes), [])
         == Outlook(if dashes.Some? then [[45, 45]] else [], [], if dashes.Some? then dashes.value else [], false)
    ensures Answers(cfg, Ending(dashes), []) == []
  {
    hide Sound, Permuting, AllArgs, View;
    var rest := Ending(dashes);
    if dashes.None? {
      ViewOfNothing(cfg);
    } else {
      assert rest[..1] == [[45, 45]] && rest[1..] == dashes.value;
      ViewAtDashes(cfg, rest);
    }
  }

  /** The options of the server, `i:p:c:`. */
  const SERVER_OPTIONS: cstring := [105, 58, 112, 58, 99, 58]

  /** `-i a -p b` answers 'i' with `a` and 'p' with `b`, for any two arguments. */
  lemma ServerArguments(program: cstring, a: cstring, b: cstring, argv: seq<cstring>, optind: nat)
    ensures var cfg := Config(SERVER_OPTIONS, None, true);
            var given := [[45, 105], a, [45, 112], b];
            && Steady(cfg) && Sorting(cfg)
            && Answers(cfg, given, []) == [(105, Some(a)), (112, Some(b))]
            && (RunTo(cfg, [program] + given, argv, optind) ==> argv == [program] + given && optind == 5)
  {
    hide Answers, RunTo, Sound, Permuting, AllArgs;
    var cfg := Config(SERVER_OPTIONS, None, true);
    ServerLetters(cfg);
    ServerFits(cfg, a, b);
    ServerList(cfg, a, b);
    hide ServerItems, AllFit, SayAll, SpellAll, UsedByAll, AllWords, Takes;
    ServerAnswers(cfg, a, b);
    var given := [[45, 105], a, [45, 112], b];
    if RunTo(cfg, [program] + given, argv, optind) {
      ServerRun(cfg, program, ServerItems(a, b), given, argv, optind);
    }
  }

  lemma ServerRun(cfg: SteadyConfig, program: cstring, items: seq<Item>, given: seq<cstring>, argv: seq<cstring>,
        optind: nat)
    requires Sorting(cfg) && AllFit(cfg, items) && given == SpellAll(items) == UsedByAll(items) && AllWords(items) == []
    requires RunTo(cfg, [program] + given, argv, optind)
    ensures argv == [program] + given && optind == 1 + |given|
  {
    hide Sorting, AllFit, SpellAll, UsedByAll, AllWords, RunTo, Answers;
    assert given + [] == given;
    RunOfList(cfg, program, items, None, argv, optind);
  }

  lemma ServerAnswers(cfg: SteadyConfig, a: cstring, b: cstring)
    requires Sorting(cfg) && AllFit(cfg, ServerItems(a, b))
    ensures Answers(cfg, SpellAll(ServerItems(a, b)), []) == SayAll(cfg, ServerItems(a, b))
  {
    hide Answers, SayAll, SpellAll, UsedByAll, AllWords, View, ServerItems, Sorting;
    var items := ServerItems(a, b);
    EndingView(cfg, None);
    ListLeads(cfg, items, Ending(None));
    assert SpellAll(items) + [] == SpellAll(items);
    assert SayAll(cfg, items) + [] == SayAll(cfg, items);
  }

  function ServerItems(a: cstring, b: cstring): seq<Item> {
    [Cluster([], Separate(105, a)), Cluster([], Separate(112, b))]
  }

  lemma ServerFits(cfg: Config, a: cstring, b: cstring)
    requires Takes(cfg, 105, RequiredArgument) && Takes(cfg, 112, RequiredArgument)
    ensures AllFit(cfg, ServerItems(a, b))
  {
    hide Takes;
  }

  lemma ServerList(cfg: Config, a: cstring, b: cstring)
    requires AllFit(cfg, ServerItems(a, b))
    ensures SpellAll(ServerItems(a, b)) == [[45, 105], a, [45, 112], b] == UsedByAll(ServerItems(a, b))
    ensures AllWords(ServerItems(a, b)) == []
    ensures SayAll(cfg, ServerItems(a, b)) == [(105, Some(a)), (112, Some(b))]
  {
    hide Fits, Spell, UsedBy, WordsOf, Says;
    ServerItem(cfg, 105, a);
    ServerItem(cfg, 112, b);
    TwoItems(cfg, Cluster([], Separate(105, a)), Cluster([], Separate(112, b)));
  }

  lemma ServerItem(cfg: Config, c: cchar, a: cstring)
    ensures var item := Cluster([], Separate(c, a));
            && Spell(item) == [[45, c], a] == UsedBy(item) && WordsOf(item) == []
            && Says(cfg, item) == [(AsInt(c), Some(a))]
  {
    assert [45] + ([] + [c]) == [45, c];
  }

  lemma TwoItems(cfg: Config, x: Item, y: Item)
    requires AllFit(cfg, [x, y])
    ensures SpellAll([x, y]) == Spell(x) + Spell(y) && UsedByAll([x, y]) == UsedBy(x) + UsedBy(y)
    ensures AllWords([x, y]) == WordsOf(x) + WordsOf(y)
    ensures Fits(cfg, x) && Fits(cfg, y)
    ensures (x.Long? || x.LongSeparate? ==> cfg.longs.Some? && x.index < |cfg.longs.value|)
    ensures (y.Long? || y.LongSeparate? ==> cfg.longs.Some? && y.index < |cfg.longs.value|)
    ensures SayAll(cfg, [x, y]) == Says(cfg, x) + Says(cfg, y)
  {
    hide Fits, Spell, UsedBy, WordsOf, Says;
    assert [x, y][0] == x && [x, y][1] == y && [x, y][1..] == [y] && [y][1..] == [];
    CanSay(cfg, x);
    CanSay(cfg, y);
    OneItem(cfg, y);
  }

  lemma OneItem(cfg: Config, y: Item)
    requires Fits(cfg, y)
    ensures SpellAll([y]) == Spell(y) && UsedByAll([y]) == UsedBy(y) && AllWords([y]) == WordsOf(y)
    ensures (y.Long? || y.LongSeparate? ==> cfg.longs.Some? && y.index < |cfg.longs.value|)
    ensures SayAll(cfg, [y]) == Says(cfg, y)
  {
    hide Fits, Spell, UsedBy, WordsOf, Says;
    CanSay(cfg, y);
    assert [y][1..] == [];
  }

  lemma ServerLetters(cfg: Config)
    requires cfg.options == SERVER_OPTIONS && cfg.longs.None? && cfg.permute
    ensures Sound(cfg) && Permuting(cfg) && !AllArgs(cfg)
    ensures Takes(cfg, 105, RequiredArgument) && Takes(cfg, 112, RequiredArgument) && Takes(cfg, 99, RequiredArgument)
  {
    assert Letters(cfg) == SERVER_OPTIONS;
    assert ListedAt(SERVER_OPTIONS, 105, 0, RequiredArgument);
    assert ListedAt(SERVER_OPTIONS, 112, 2, RequiredArgument);
    assert ListedAt(SERVER_OPTIONS, 99, 4, RequiredArgument);
  }
}
