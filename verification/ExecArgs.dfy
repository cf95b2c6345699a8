/** The command line by which a test starts the program again as its child, and how main reads it back. */
module ExecArgs {
  import opened Wrappers

  /** The option variables main sets. */
  datatype Options = Options(runAll: bool, coredump: bool, debugger: bool, execedChild: bool, fast: bool,
                             glob: bool, extraArgv: bool, list: bool, qtrace: bool, qtraceUser: bool,
                             sleep: bool, verbose: nat, xml: bool)

  const DEFAULTS := Options(false, false, false, false, false, false, false, false, false, false, false, 0, false)

  // ---- writing ----------------------------------------------------------------------------------

  function When(b: bool, arg: string): seq<string> { if b then [arg] else [] }

  function ExecVector(path: string, parent: Options, name: string, extras: seq<string>): seq<string> {
    [path, "-E"] + When(extras != [], "-K") + When(parent.coredump, "-c") + When(parent.verbose > 0, "-v")
    + [name] + extras
  }

  /** mk_exec_args; the vector it fills ends in a null pointer that is not kept here. */
  method MkExecArgs(path: string, parent: Options, name: string, extras: seq<string>) returns (args: seq<string>)
    ensures args == ExecVector(path, parent, name, extras)
  {
    var extraArgc := |extras|;
    args := [path] + ["-E"];
    if extraArgc > 0 {
      args := args + ["-K"];
    }
    if parent.coredump {
      args := args + ["-c"];
    }
    if parent.verbose > 0 {
      args := args + ["-v"];
    }
    args := args + [name];
    ghost var head := args;
    var next := 0;
    while extraArgc > 0
      invariant 0 <= next <= |extras| && next + extraArgc == |extras| && args == head + extras[..next]
    {
      args := args + [extras[next]];
      next := next + 1;
      extraArgc := extraArgc - 1;
    }
    assert extras[..next] == extras;
  }

  /** The vector with its null pointer fits the 6 + |extras| slots allocated for it, unless there are extra
      arguments and both flags are passed on. */
  lemma VectorFitsExactly(path: string, parent: Options, name: string, extras: seq<string>)
    ensures |ExecVector(path, parent, name, extras)| + 1 <= 6 + |extras| <==>
      !(extras != [] && parent.coredump && parent.verbose > 0)
  {}

  /** What is where in the vector: the path, the name and the extra arguments at its ends, and between them the flags
      that apply, each once. */
  lemma VectorParts(path: string, parent: Options, name: string, extras: seq<string>)
    ensures var v := ExecVector(path, parent, name, extras);
      var n := |v| - |extras| - 1;
      && 2 <= n && v[0] == path && v[n] == name && v[n + 1..] == extras
      && n == 2 + Bit(extras != []) + Bit(parent.coredump) + Bit(parent.verbose > 0)
      && "-E" in v[1..n] && (extras != [] ==> "-K" in v[1..n])
      && (parent.coredump ==> "-c" in v[1..n]) && (parent.verbose > 0 ==> "-v" in v[1..n])
  {
    var k, c, w := When(extras != [], "-K"), When(parent.coredump, "-c"), When(parent.verbose > 0, "-v");
    var v, flags := ExecVector(path, parent, name, extras), ["-E"] + k + c + w;
    assert v == [path] + flags + [name] + extras;
    assert v[1..|flags| + 1] == flags;
    assert "-E" in ["-E"];
  }

  function Bit(b: bool): nat { if b then 1 else 0 }

  // ---- reading ----------------------------------------------------------------------------------

  datatype Parsed = Parsed(options: Options, rest: seq<string>) | Usage

  /** One option letter; u is in the option string but has no case. Tracing options need a system set up for it. */
  function Letter(c: char, o: Options, traceable: bool): Option<Options> {
    match c
    case 'a' => Some(o.(runAll := true))
    case 'c' => Some(o.(coredump := true))
    case 'd' => Some(o.(debugger := true))
    case 'E' => Some(o.(execedChild := true))
    case 'f' => Some(o.(fast := true))
    case 'g' => Some(o.(glob := true))
    case 'K' => Some(o.(extraArgv := true))
    case 'l' => Some(o.(list := true))
    case 'Q' => if traceable then Some(o.(qtraceUser := true, qtrace := true)) else None
    case 'q' => if traceable then Some(o.(qtrace := true)) else None
    case 's' => Some(o.(sleep := true))
    case 'v' => Some(o.(verbose := o.verbose + 1))
    case 'x' => Some(o.(xml := true))
    case _ => None
  }

  function Letters(cs: string, o: Options, traceable: bool): Option<Options> {
    if cs == [] then Some(o)
    else
      match Letter(cs[0], o, traceable)
      case None => None
      case Some(p) => Letters(cs[1..], p, traceable)
  }

  /** getopt stops before this argument, as on FreeBSD and with musl: it does not look for options further on. */
  predicate NonOption(arg: string) { |arg| < 2 || arg[0] != '-' }

  /** The option loop over the arguments after the program's name. */
  function Parse(args: seq<string>, o: Options, traceable: bool): Parsed {
    if args == [] || NonOption(args[0]) then Parsed(o, args)
    else if args[0] == "--" then Parsed(o, args[1..])
    else
      match Letters(args[0][1..], o, traceable)
      case None => Usage
      case Some(p) => Parse(args[1..], p, traceable)
  }

  method ReadOptions(args: seq<string>, traceable: bool) returns (r: Parsed)
    ensures r == Parse(args, DEFAULTS, traceable)
  {
    var o := DEFAULTS;
    var optind := 0;
    while optind < |args| && !NonOption(args[optind]) && args[optind] != "--"
      invariant 0 <= optind <= |args|
      invariant Parse(args, DEFAULTS, traceable) == Parse(args[optind..], o, traceable)
    {
      var arg := args[optind];
      ghost var before := o;
      var place := 1;
      while place < |arg|
        invariant 1 <= place <= |arg|
        invariant Letters(arg[1..], before, traceable) == Letters(arg[place..], o, traceable)
      {
        var p := Letter(arg[place], o, traceable);
        if p.None? {
          return Usage;
        }
        o := p.value;
        place := place + 1;
      }
      optind := optind + 1;
    }
    if optind < |args| && args[optind] == "--" {
      return Parsed(o, args[optind + 1..]);
    }
    return Parsed(o, args[optind..]);
  }

  /** What main goes on to do. */
  datatype Action =
    | Refuse
    | ListTests
    | RunChild(name: string, extras: seq<string>)
    | RunAll
    | RunMatching(patterns: seq<string>)
    | RunNamed(names: seq<string>)

  /** The checks after the loop, in order. */
  function Dispatch(p: Parsed): Action {
    if p.Usage? then Refuse
    else
      var o, argc := p.options, |p.rest|;
      if o.extraArgv && !o.execedChild then Refuse
      else if o.execedChild && (o.runAll || o.glob || o.list) then Refuse
      else if o.execedChild && argc != 1 && !o.extraArgv then Refuse
      else if o.runAll && (o.list || o.glob) then Refuse
      else if o.list then if argc == 0 then ListTests else Refuse
      else if argc == 0 && !o.runAll then Refuse
      else if argc > 0 && o.runAll then Refuse
      else if o.execedChild then RunChild(p.rest[0], p.rest[1..])
      else if o.runAll then RunAll
      else if o.glob then RunMatching(p.rest)
      else RunNamed(p.rest)
  }

  /** Which command lines lead where: each action has its own condition, and all others are refused. */
  lemma DispatchExactly(o: Options, rest: seq<string>)
    ensures var act := Dispatch(Parsed(o, rest));
      var plain := !o.execedChild && !o.extraArgv;
      && (act.RunChild? <==>
            && o.execedChild && !o.runAll && !o.glob && !o.list && rest != [] && (o.extraArgv || |rest| == 1))
      && (act.RunChild? ==> [act.name] + act.extras == rest)
      && (act == RunAll <==> plain && o.runAll && !o.list && !o.glob && rest == [])
      && (act == ListTests <==> plain && o.list && !o.runAll && rest == [])
      && (act == RunMatching(rest) <==> plain && o.glob && !o.runAll && !o.list && rest != [])
      && (act == RunNamed(rest) <==> plain && !o.glob && !o.runAll && !o.list && rest != [])
  {
    if rest != [] {
      assert [rest[0]] + rest[1..] == rest;
    }
  }

  /** What the parent's options become in the child. */
  function Inherited(parent: Options, extras: seq<string>): Options {
    DEFAULTS.(execedChild := true, extraArgv := extras != [], coredump := parent.coredump,
              verbose := if parent.verbose > 0 then 1 else 0)
  }

  lemma {:induction false} ParseShrinks(args: seq<string>, o: Options, traceable: bool)
    ensures var p := Parse(args, o, traceable); p.Parsed? ==> |p.rest| <= |args|
    ensures var p := Parse(args, o, traceable); p.Parsed? && args != [] && !NonOption(args[0]) ==> |p.rest| < |args|
  {
    if args != [] && !NonOption(args[0]) && args[0] != "--" {
      var l := Letters(args[0][1..], o, traceable);
      if l.Some? {
        ParseShrinks(args[1..], l.value, traceable);
      }
    }
  }

  /** One flag written by mk_exec_args. */
  lemma FlagRead(c: char, rest: seq<string>, o: Options, traceable: bool)
    requires c != '-' && Letter(c, o, traceable).Some?
    ensures Parse([['-', c]] + rest, o, traceable) == Parse(rest, Letter(c, o, traceable).value, traceable)
  {
    var args := [['-', c]] + rest;
    var arg := ['-', c];
    assert args[0] == arg && args[1..] == rest && arg[1] != "--"[1] && !NonOption(arg);
    assert arg[1..] == [c] && [c][1..] == [];
    assert Letters([c], o, traceable) == Letter(c, o, traceable);
  }

  /** The options a command line of one option and a test name gives, or none where it is refused. */
  function OneOption(arg: string, name: string, traceable: bool): Option<Options> {
    match Parse([arg, name], DEFAULTS, traceable)
    case Usage => None
    case Parsed(o, rest) => if rest == [name] then Some(o) else None
  }

  lemma OneLetter(arg: string, c: char, name: string, traceable: bool)
    requires c != '-' && NonOption(name) && arg == ['-', c]
    ensures OneOption(arg, name, traceable) == Letter(c, DEFAULTS, traceable)
  {
    var args := [arg, name];
    assert args[1..] == [name] && arg[1..] == [c] && [c][1..] == [] && !NonOption(arg) && arg[1] != "--"[1];
    assert Letters([c], DEFAULTS, traceable) == Letter(c, DEFAULTS, traceable);
    if Letter(c, DEFAULTS, traceable).Some? {
      var o := Letter(c, DEFAULTS, traceable).value;
      assert Parse([name], o, traceable) == Parsed(o, [name]);
      assert Parse(args, DEFAULTS, traceable) == Parse([name], o, traceable);
    }
  }

  /** What each option of a command line sets, and nothing else. */
  predicate Sets(arg: string, o: Options, name: string, traceable: bool) {
    OneOption(arg, name, traceable) == Some(o)
  }

  lemma OneSets(arg: string, c: char, o: Options, name: string, traceable: bool)
    requires c != '-' && NonOption(name) && arg == ['-', c] && Letter(c, DEFAULTS, traceable) == Some(o)
    ensures Sets(arg, o, name, traceable)
  {
    OneLetter(arg, c, name, traceable);
  }

  lemma TestsChosen(name: string, traceable: bool)
    requires NonOption(name)
    ensures Sets("-a", DEFAULTS.(runAll := true), name, traceable)
    ensures Sets("-f", DEFAULTS.(fast := true), name, traceable)
    ensures Sets("-g", DEFAULTS.(glob := true), name, traceable)
    ensures Sets("-l", DEFAULTS.(list := true), name, traceable)
  {
    OneSets("-a", 'a', DEFAULTS.(runAll := true), name, traceable);
    OneSets("-f", 'f', DEFAULTS.(fast := true), name, traceable);
    OneSets("-g", 'g', DEFAULTS.(glob := true), name, traceable);
    OneSets("-l", 'l', DEFAULTS.(list := true), name, traceable);
  }

  lemma ChildTold(name: string, traceable: bool)
    requires NonOption(name)
    ensures Sets("-c", DEFAULTS.(coredump := true), name, traceable)
    ensures Sets("-E", DEFAULTS.(execedChild := true), name, traceable)
    ensures Sets("-K", DEFAULTS.(extraArgv := true), name, traceable)
    ensures Sets("-v", DEFAULTS.(verbose := 1), name, traceable)
  {
    OneSets("-c", 'c', DEFAULTS.(coredump := true), name, traceable);
    OneSets("-E", 'E', DEFAULTS.(execedChild := true), name, traceable);
    OneSets("-K", 'K', DEFAULTS.(extraArgv := true), name, traceable);
    OneSets("-v", 'v', DEFAULTS.(verbose := 1), name, traceable);
  }

  lemma OthersSet(name: string, traceable: bool)
    requires NonOption(name)
    ensures Sets("-d", DEFAULTS.(debugger := true), name, traceable)
    ensures Sets("-s", DEFAULTS.(sleep := true), name, traceable)
    ensures Sets("-x", DEFAULTS.(xml := true), name, traceable)
  {
    OneSets("-d", 'd', DEFAULTS.(debugger := true), name, traceable);
    OneSets("-s", 's', DEFAULTS.(sleep := true), name, traceable);
    OneSets("-x", 'x', DEFAULTS.(xml := true), name, traceable);
  }

  lemma TracingSet(name: string, traceable: bool)
    requires NonOption(name)
    ensures Sets("-q", DEFAULTS.(qtrace := true), name, traceable) <==> traceable
    ensures Sets("-Q", DEFAULTS.(qtrace := true, qtraceUser := true), name, traceable) <==> traceable
  {
    OneLetter("-q", 'q', name, traceable);
    OneLetter("-Q", 'Q', name, traceable);
  }

  /** Any other letter is refused, as -q and -Q are without tracing. */
  lemma OthersRefused(c: char, name: string, traceable: bool)
    requires c != '-' && NonOption(name)
    ensures OneOption(['-', c], name, traceable) == None <==> c !in "acdEfgKlQqsvx" || (!traceable && c in "Qq")
  {
    OneLetter(['-', c], c, name, traceable);
  }

  function Main(args: seq<string>): Action { Dispatch(Parse(args, DEFAULTS, false)) }

  /** What main does on the plainest command lines. */
  lemma CommandLines(name: string)
    requires NonOption(name)
    ensures Main([]) == Refuse && Main(["-l"]) == ListTests && Main(["-a"]) == RunAll
    ensures Main([name]) == RunNamed([name])
    ensures Main(["-g", name]) == RunMatching([name]) && Main(["-E", name]) == RunChild(name, [])
    ensures Main(["-l", name]) == Refuse && Main(["-a", name]) == Refuse
  {
    AloneRead("-l", 'l');
    AloneRead("-a", 'a');
    WithName("-g", 'g', name);
    WithName("-E", 'E', name);
    WithName("-l", 'l', name);
    WithName("-a", 'a', name);
    assert [name][1..] == [];
  }

  lemma AloneRead(arg: string, c: char)
    requires c != '-' && Letter(c, DEFAULTS, false).Some? && arg == ['-', c]
    ensures Parse([arg], DEFAULTS, false) == Parsed(Letter(c, DEFAULTS, false).value, [])
  {
    assert [['-', c]] + [] == [arg];
    FlagRead(c, [], DEFAULTS, false);
  }

  lemma WithName(arg: string, c: char, name: string)
    requires c != '-' && Letter(c, DEFAULTS, false).Some? && arg == ['-', c] && NonOption(name)
    ensures Parse([arg, name], DEFAULTS, false) == Parsed(Letter(c, DEFAULTS, false).value, [name])
  {
    assert [['-', c]] + [name] == [arg, name];
    FlagRead(c, [name], DEFAULTS, false);
  }

  /** Each letter as an option of its own. */
  function Words(cs: string): seq<string> { seq(|cs|, i requires 0 <= i < |cs| => ['-', cs[i]]) }

  /** Single flags are read like their letters. */
  lemma {:induction false} WordsRead(cs: string, rest: seq<string>, o: Options, traceable: bool)
    requires '-' !in cs && Letters(cs, o, traceable).Some?
    ensures Parse(Words(cs) + rest, o, traceable) == Parse(rest, Letters(cs, o, traceable).value, traceable)
    decreases |cs|
  {
    if cs == [] {
      assert Words(cs) + rest == rest;
    } else {
      assert Words(cs) + rest == [['-', cs[0]]] + (Words(cs[1..]) + rest);
      FlagRead(cs[0], Words(cs[1..]) + rest, o, traceable);
      WordsRead(cs[1..], rest, Letter(cs[0], o, traceable).value, traceable);
    }
  }

  function Maybe(b: bool, c: char): string { if b then [c] else [] }

  /** The letters mk_exec_args writes. */
  function Given(k: bool, c: bool, v: bool): string { ['E'] + Maybe(k, 'K') + Maybe(c, 'c') + Maybe(v, 'v') }

  lemma GivenWords(k: bool, c: bool, v: bool)
    ensures Words(Given(k, c, v)) == ["-E"] + When(k, "-K") + When(c, "-c") + When(v, "-v")
  {}

  lemma MaybeRead(b: bool, c: char, o: Options, traceable: bool)
    requires Letter(c, o, traceable).Some?
    ensures Letters(Maybe(b, c), o, traceable) == Some(if b then Letter(c, o, traceable).value else o)
  {
    assert b ==> Maybe(b, c)[1..] == [];
  }

  lemma GivenRead(k: bool, c: bool, v: bool, traceable: bool)
    ensures Letters(Given(k, c, v), DEFAULTS, traceable) ==
      Some(DEFAULTS.(execedChild := true, extraArgv := k, coredump := c, verbose := if v then 1 else 0))
  {
    var o := DEFAULTS.(execedChild := true);
    assert ['E'][1..] == [];
    assert Letters(['E'], DEFAULTS, traceable) == Some(o);
    LettersSplit(['E'], Maybe(k, 'K'), DEFAULTS, traceable);
    MaybeRead(k, 'K', o, traceable);
    LettersSplit(['E'] + Maybe(k, 'K'), Maybe(c, 'c'), DEFAULTS, traceable);
    MaybeRead(c, 'c', o.(extraArgv := k), traceable);
    LettersSplit(['E'] + Maybe(k, 'K') + Maybe(c, 'c'), Maybe(v, 'v'), DEFAULTS, traceable);
    MaybeRead(v, 'v', o.(extraArgv := k, coredump := c), traceable);
  }

  lemma TailOfVector(path: string, flags: seq<string>, rest: seq<string>)
    ensures ([path] + flags + rest)[1..] == flags + rest
  {}

  lemma Regrouped(path: string, k: seq<string>, c: seq<string>, v: seq<string>, name: string, extras: seq<string>)
    ensures [path, "-E"] + k + c + v + [name] + extras == [path] + (["-E"] + k + c + v) + ([name] + extras)
  {
    assert [path, "-E"] == [path] + ["-E"];
  }

  lemma VectorFlags(path: string, parent: Options, name: string, extras: seq<string>)
    ensures var k, c, v := extras != [], parent.coredump, parent.verbose > 0;
      ExecVector(path, parent, name, extras) == [path] + Words(Given(k, c, v)) + ([name] + extras)
  {
    var k, c, v := extras != [], parent.coredump, parent.verbose > 0;
    Regrouped(path, When(k, "-K"), When(c, "-c"), When(v, "-v"), name, extras);
    GivenWords(k, c, v);
  }

  /** The flags are read back whatever follows them. */
  lemma FlagsReadBack(path: string, parent: Options, name: string, extras: seq<string>, traceable: bool)
    ensures Parse(ExecVector(path, parent, name, extras)[1..], DEFAULTS, traceable) ==
      Parse([name] + extras, Inherited(parent, extras), traceable)
  {
    var cs := Given(extras != [], parent.coredump, parent.verbose > 0);
    VectorFlags(path, parent, name, extras);
    TailOfVector(path, Words(cs), [name] + extras);
    GivenRead(extras != [], parent.coredump, parent.verbose > 0, traceable);
    WordsRead(cs, [name] + extras, DEFAULTS, traceable);
  }

  /** The child runs the test it was started for, with its extra arguments in order and the flags handed down,
      exactly when the test's name cannot be taken for an option. */
  lemma RoundTripExactly(path: string, parent: Options, name: string, extras: seq<string>, traceable: bool)
    ensures var p := Parse(ExecVector(path, parent, name, extras)[1..], DEFAULTS, traceable);
      (Dispatch(p) == RunChild(name, extras) && p.options == Inherited(parent, extras)) <==> NonOption(name)
  {
    FlagsReadBack(path, parent, name, extras, traceable);
    var args := [name] + extras;
    var p := Parse(args, Inherited(parent, extras), traceable);
    if NonOption(name) {
      assert p.rest[1..] == extras;
    } else {
      ParseShrinks(args, Inherited(parent, extras), traceable);
    }
  }

  /** Letters may be given together or apart, so long as no part begins with a dash. */
  lemma {:induction false} ClusterSplits(x: string, y: string, rest: seq<string>, o: Options, traceable: bool)
    requires x != [] && y != [] && x[0] != '-' && y[0] != '-'
    ensures Parse([['-'] + x + y] + rest, o, traceable) == Parse([['-'] + x, ['-'] + y] + rest, o, traceable)
  {
    LettersSplit(x, y, o, traceable);
    var whole, parts := [['-'] + x + y] + rest, [['-'] + x, ['-'] + y] + rest;
    assert whole[0][1..] == x + y && whole[1..] == rest && whole[0][1] != '-';
    assert parts[0][1..] == x && parts[1..] == [['-'] + y] + rest && parts[0][1] != '-';
    assert parts[1..][0][1..] == y && parts[1..][1..] == rest && parts[1..][0][1] != '-';
  }

  lemma {:induction false} LettersSplit(x: string, y: string, o: Options, traceable: bool)
    ensures Letters(x + y, o, traceable) ==
      (match Letters(x, o, traceable) case None => None case Some(p) => Letters(y, p, traceable))
  {
    if x == [] {
      assert x + y == y;
    } else {
      assert (x + y)[1..] == x[1..] + y;
      var p := Letter(x[0], o, traceable);
      if p.Some? {
        LettersSplit(x[1..], y, p.value, traceable);
      }
    }
  }
}
