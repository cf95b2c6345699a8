/** The `seen` cache of meta2deps.py against the same parser with every `seen` test removed: which
    configurations make the cache invisible in the dependency lists, exactly. */
module MetaCache {
  import opened Wrappers
  import opened PyStrings
  import opened CleanPath
  import opened MetaSpec
  import opened MetaProcess
  import opened SeenCache

  // ---- setting ------------------------------------------------------------------------------

  /** What a file system promises about path p. */
  ghost predicate PathLaws(w: World, p: string) {
    && (Canonical(p) && w.present(p) ==> w.isDir(Parent(p)))
    && (w.isDir(p) ==> w.present(p))
    && ("/" <= p ==> w.isDir("/" + p) == w.isDir(p))
    && (Canonical(p) && w.isDir(p) ==>
          && Canonical(w.realPath(p)) && w.isDir(w.realPath(p))
          && w.realPath(w.realPath(p)) == w.realPath(p))
  }

  /** `__init__` ends every root with a slash. */
  predicate Roots(tops: seq<string>) {
    forall k :: 0 <= k < |tops| ==> EndsWith(tops[k], "/")
  }

  ghost predicate Lawful(w: World) { forall p :: PathLaws(w, p) }

  ghost predicate Setting(w: World, home: string) {
    && Lawful(w) && Roots(w.srctops)
    && "/" <= home && w.isDir(home)
    && (w.curdir.Some? ==> "/" <= w.curdir.value && w.isDir(w.curdir.value))
  }

  /** A file parse_path would look at. */
  predicate Readable(w: World, p: string) {
    Canonical(p) && w.present(p) && !w.isDir(p) && !EndsWith(p, ".dirdep") && !Excluded(p, w.excludes)
  }

  /** The directories whose files never count. */
  predicate Ignored(w: World, home: string, d: string) { d == home || Some(d) == w.curdir }

  function Real(w: World, d: string): Option<string> {
    if w.realPath(d) == d then None else Some(w.realPath(d))
  }

  // ---- what a directory contributes -----------------------------------------------------------

  function SrcName(w: World, d: string): Option<string> {
    var top := FindTop(d + "/", w.srctops);
    if top.Some? then Some(Remove(d, top.value)) else None
  }

  predicate InObjects(w: World, d: string) { FindTop(d, w.objroots).Some? }

  function ObjName(w: World, d: string): Option<string> {
    var root := FindTop(d, w.objroots);
    if root.None? then None
    else
      var dep := ObjDep(w, root.value, d);
      if dep == Some("") then None else dep
  }

  /** The entries the files of a directory that is not ignored add to src_deps and obj_deps. */
  function Contribution(w: World, d: string): (Option<string>, Option<string>) {
    var r := Real(w, d);
    var src := if SrcName(w, d).Some? || r.None? then SrcName(w, d) else SrcName(w, r.value);
    if src.Some? && r.None? then (src, None)
    else (src, if InObjects(w, d) || r.None? then ObjName(w, d) else ObjName(w, r.value))
  }

  /** The directories a file of directory d puts into `seen`. */
  function Marks(w: World, d: string): set<string> {
    var r := Real(w, d);
    (if SrcName(w, d).Some? || InObjects(w, d) then {d} else {})
    + (if r.Some? && (!InObjects(w, d) || (SrcName(w, d).None? && SrcName(w, r.value).Some?)) then {r.value} else {})
  }

  /** The directory of the file that a raw token names: a name that is not absolute does not tell it, and place
      says where each is used. */
  function DirOf(w: World, place: string -> string, token: string): string {
    if !("/" <= token) then place(token)
    else if w.isDir(token) then token
    else Parent(token)
  }

  /** The parser's rules in the terms of the cache. */
  function RulesOf(w: World, home: string, place: string -> string): Rules {
    Rules(p => Readable(w, p), p => Parent(p), token => DirOf(w, place, token), d => Ignored(w, home, d),
          d => Contribution(w, d), d => Marks(w, d))
  }

  function ListsOf(m: Meta): Lists { Lists(m.seen, m.srcDeps, m.objDeps) }

  // ---- parse_path follows the rules -----------------------------------------------------------

  lemma {:induction false} FindTopIgnoresBase(d: string, base: string, tops: seq<string>)
    requires Roots(tops) && '/' !in base
    ensures FindTop(d + "/" + base, tops) == FindTop(d + "/", tops)
    decreases |tops|
  {
    if tops != [] {
      PrefixIgnoresBase(d, base, tops[0]);
      assert forall k :: 0 <= k < |tops[1..]| ==> tops[1..][k] == tops[k + 1];
      FindTopIgnoresBase(d, base, tops[1..]);
    }
  }

  lemma PrefixIgnoresBase(d: string, base: string, top: string)
    requires EndsWith(top, "/") && '/' !in base
    ensures top <= d + "/" + base <==> top <= d + "/"
  {
    var p := d + "/" + base;
    assert top[|top| - 1] == '/';
    assert forall k :: |d| < k < |p| ==> p[k] == base[k - |d| - 1];
    assert forall k :: 0 <= k <= |d| ==> p[k] == (d + "/")[k];
  }

  lemma IsSrcEffect(w: World, m: Meta, base: string, d: string, r: Option<string>)
    requires Roots(w.srctops) && '/' !in base && d != "" && (r.Some? ==> r.value != "")
    ensures IsSrc(w, m, base, BothNames(d, r)) ==
      if SrcName(w, d).Some? then
        (true, m.(srcDeps := Add(m.srcDeps, SrcName(w, d).value), seen := m.seen + {d}))
      else if r.Some? && SrcName(w, r.value).Some? then
        (true, m.(srcDeps := Add(m.srcDeps, SrcName(w, r.value).value), seen := m.seen + {r.value}))
      else (false, m)
  {
    FindTopIgnoresBase(d, base, w.srctops);
    if r.Some? {
      FindTopIgnoresBase(r.value, base, w.srctops);
      assert BothNames(d, r)[1..] == [r.value] && [r.value][1..] == [];
      assert IsSrc(w, m, base, []) == (false, m);
      assert IsSrc(w, m, base, [r.value]) == if SrcName(w, r.value).Some? then
          (true, m.(srcDeps := Add(m.srcDeps, SrcName(w, r.value).value), seen := m.seen + {r.value}))
        else (false, m);
    } else {
      assert BothNames(d, r)[1..] == [];
      assert IsSrc(w, m, base, []) == (false, m);
    }
  }

  lemma ObjrootEffect(w: World, d: string, r: Option<string>)
    requires d != "" && (r.Some? ==> r.value != "")
    ensures FindObjroot(w, BothNames(d, r)) ==
      if InObjects(w, d) then Some((FindTop(d, w.objroots).value, d))
      else if r.Some? && InObjects(w, r.value) then Some((FindTop(r.value, w.objroots).value, r.value))
      else None
  {
    if r.Some? {
      assert BothNames(d, r)[1..] == [r.value] && [r.value][1..] == [];
      assert FindObjroot(w, []) == None;
      assert FindObjroot(w, [r.value]) ==
        if InObjects(w, r.value) then Some((FindTop(r.value, w.objroots).value, r.value)) else None;
    } else {
      assert BothNames(d, r)[1..] == [];
      assert FindObjroot(w, []) == None;
    }
  }

  /** What a file of directory d leaves in the fields. */
  function Contributed(w: World, m: Meta, d: string, input: string): Meta {
    m.(seen := m.seen + Marks(w, d) + {input},
       srcDeps := AddOpt(m.srcDeps, Contribution(w, d).0),
       objDeps := AddOpt(m.objDeps, Contribution(w, d).1))
  }

  /** The real directory of the file has the name it was read under. */
  lemma ClassifyReal(w: World, m: Meta, d: string, base: string, input: string)
    requires Roots(w.srctops) && '/' !in base && d != "" && Real(w, d) == None && !Ignored(w, m.cwd, d)
    ensures Classify(w, m, d, None, base, input) == Contributed(w, m, d, input)
  {
    IsSrcEffect(w, m, base, d, None);
    ObjrootEffect(w, d, None);
    var n := Classify(w, m, d, None, base, input);
    assert n.seen == m.seen + Marks(w, d) + {input};
  }

  /** The directory is a link to r. */
  lemma ClassifyLink(w: World, m: Meta, d: string, r: string, base: string, input: string)
    requires Roots(w.srctops) && '/' !in base && d != "" && r != "" && Real(w, d) == Some(r) && !Ignored(w, m.cwd, d)
    ensures Classify(w, m, d, Some(r), base, input) == Contributed(w, m, d, input)
  {
    IsSrcEffect(w, m, base, d, Some(r));
    ObjrootEffect(w, d, Some(r));
    var n := Classify(w, m, d, Some(r), base, input);
    assert n.seen == m.seen + Marks(w, d) + {input};
  }

  lemma ClassifyEffect(w: World, m: Meta, d: string, base: string, input: string)
    requires Roots(w.srctops) && '/' !in base && d != "" && w.realPath(d) != ""
    ensures Classify(w, m, d, Real(w, d), base, input) ==
      if Ignored(w, m.cwd, d) then m else Contributed(w, m, d, input)
  {
    if !Ignored(w, m.cwd, d) {
      match Real(w, d)
      case None => ClassifyReal(w, m, d, base, input);
      case Some(r) => ClassifyLink(w, m, d, r, base, input);
    }
  }

  lemma RootParts()
    ensures Parent("/") == "/" && Base("/") == ""
  {
    SplitTop("");
    assert "/" + "" == "/";
  }

  /** The path the parser builds for name x in directory d. */
  function Spelled(d: string, x: string): string {
    if "/" <= x then x else if "./" <= x then d + x[1..] else d + "/" + x
  }

  /** A name it builds a canonical path for: absolute, or used where the process has just its own directory. */
  predicate Plain(d: string, x: string, lastDir: string) {
    Canonical(Spelled(d, x)) && ("/" <= x || (d != "" && lastDir == d))
  }

  /** A name is looked up, unless it starts with a dot and a slash. */
  predicate LookedUp(w: World, d: string, x: string) { "./" <= x ==> w.present(Spelled(d, x)) }

  lemma CanonicalResolves(w: World, p: string, cwd: string, lastDir: Option<string>)
    requires Canonical(p)
    ensures Resolve(w, p, cwd, lastDir) == if w.present(p) then Some(p) else None
    ensures w.present(p) ==> AbsPath(w, p, cwd, lastDir) == Some(p)
  {
    if p != "/" { CanonicalSplit(p); }
    assert StripDots(p) == p;
  }

  /** Names that spell a canonical path have no dots for resolve to strip or to follow. */
  lemma NoDots(d: string, x: string)
    requires Canonical(d + "/" + x) && !("/" <= x) && d != ""
    ensures StripDots(x) == x && !EndsWith(x, "/.") && x != "." && x != ".." && !("./" <= x)
    ensures Canonical(d) && EndsWith(x, ".dirdep") == EndsWith(d + "/" + x, ".dirdep")
  {
    var p := d + "/" + x;
    ProperParts(d, x);
    var u, v := Split(d, '/'), Split(x, '/');
    assert p[|d|] == '/' && |p| > 1;
    if "./" <= x {
      assert x == "." + ['/'] + x[2..];
      SplitAppend(".", x[2..], '/');
      SplitPlain(".", '/');
      assert v[0] == ".";
    }
    SplitPlain(".", '/');
    SplitPlain("..", '/');
    SuffixOfName(d, x, "/.");
    SuffixOfName(d, x, ".dirdep");
    CanonicalSplit(p);
    assert !EndsWith(p, "/.");
    CanonicalExactly(d);
  }

  lemma DottedName(d: string, x: string)
    requires "./" <= x && Canonical(d + x[1..]) && d != ""
    ensures StripDots(x) == x && Canonical(d) && EndsWith(x, ".dirdep") == EndsWith(d + x[1..], ".dirdep")
  {
    var y := x[2..];
    assert x == "." + "/" + y && d + x[1..] == d + "/" + y;
    ProperParts(d, y);
    assert Proper(Split(y, '/')[0]);
    NoDots(d, y);
    SuffixOfName(".", y, ".dirdep");
    DottedEnd(y);
  }

  lemma DottedEnd(y: string)
    requires y != "." && !EndsWith(y, "/.")
    ensures StripDots("." + "/" + y) == "." + "/" + y
  {
    var x := "." + "/" + y;
    assert x[0] == '.' && x[1] == '/';
    if |y| >= 2 {
      assert y[|y| - 2..] == x[|x| - 2..];
    } else if |y| == 1 {
      assert y[0] != '.' by { assert y == [y[0]]; }
      assert x[|x| - 2..][1] == y[0];
    } else {
      assert x[|x| - 2..][0] == '.';
    }
  }

  /** Names of either form. */
  lemma NameSpelt(d: string, x: string)
    requires Canonical(Spelled(d, x)) && !("/" <= x) && d != ""
    ensures StripDots(x) == x && x != "." && x != ".."
    ensures Canonical(d) && EndsWith(x, ".dirdep") == EndsWith(Spelled(d, x), ".dirdep")
  {
    if "./" <= x { DottedName(d, x); } else { NoDots(d, x); }
  }

  /** Both halves of a canonical path are made of proper names. */
  lemma ProperParts(d: string, x: string)
    requires Canonical(d + "/" + x) && d != ""
    ensures "/" <= d && AllProper(Split(d, '/')[1..]) && AllProper(Split(x, '/'))
  {
    var p := d + "/" + x;
    assert p == d + ['/'] + x && p[0] == d[0] && |p| > 1;
    SplitAppend(d, x, '/');
    CanonicalExactly(p);
    ProperHalves(Split(d, '/'), Split(x, '/'));
  }

  lemma ProperHalves(u: seq<string>, v: seq<string>)
    requires |u| >= 1 && AllProper((u + v)[1..])
    ensures AllProper(u[1..]) && AllProper(v)
  {
    var w := (u + v)[1..];
    forall k | 0 <= k < |v| ensures Proper(v[k]) { assert w[|u| - 1 + k] == v[k]; }
    forall k | 0 <= k < |u| - 1 ensures Proper(u[1..][k]) { assert w[k] == u[1..][k]; }
  }

  lemma SuffixOfName(d: string, x: string, t: string)
    requires |t| >= 2 && forall k :: 1 <= k < |t| ==> t[k] != '/'
    ensures EndsWith(x, t) ==> EndsWith(d + "/" + x, t)
    ensures EndsWith(d + "/" + x, t) && t[0] != '/' ==> EndsWith(x, t)
  {
    var p := d + "/" + x;
    if |t| <= |x| {
      assert p[|p| - |t|..] == x[|x| - |t|..];
    } else if EndsWith(p, t) {
      var tail := p[|p| - |t|..];
      assert tail[|t| - |x| - 1] == p[|d|] == '/';
    }
  }

  /** Either kind of name resolves to the path it spells, if that exists. */
  lemma NameResolves(w: World, x: string, cwd: string, lastDir: string)
    requires Plain(cwd, x, lastDir)
    ensures var p := Spelled(cwd, x);
      Resolve(w, x, cwd, Some(lastDir)) == if w.present(p) || "./" <= x then Some(p) else None
  {
    if "/" <= x {
      CanonicalResolves(w, x, cwd, Some(lastDir));
    } else {
      NameSpelt(cwd, x);
    }
  }

  /** The path parse_path rebuilds is the one it was given, up to a doubled leading slash. */
  lemma Rebuilt(w: World, p: string)
    requires PathLaws(w, p) && Canonical(p)
    ensures w.isDir(Parent(p) + "/" + Base(p)) == w.isDir(p)
  {
    if p == "/" {
      RootParts();
      assert "/" + "/" + "" == "/" + p;
    } else {
      CanonicalSplit(p);
      if Parent(p) == "/" { assert "/" + "/" + Base(p) == "/" + p; }
    }
  }

  /** The parser compares paths with directories, and with wherever its process has gone by chdir. */
  predicate HomesOk(w: World, m: Meta, cwd: string) {
    (w.isDir(m.lastDir) || m.lastDir == cwd) && w.isDir(m.cwd) && (w.curdir.Some? ==> w.isDir(w.curdir.value))
  }

  /** The path of the file, as the parser puts it together again, is the place of the process. */
  predicate IsCwd(cwd: string, p: string, op: Op) { op != ExecOp && Parent(p) + "/" + Base(p) == cwd }

  lemma ParseAt(w: World, m: Meta, cwd: string, path: string, p: string, op: Op, input: string, cached: bool,
                r: Option<string>)
    requires Resolve(w, path, cwd, Some(m.lastDir)) == Some(p) && p != ""
    requires DirNames(w, m, cwd, Parent(p)) == (Parent(p), r)
    requires !EndsWith(path, ".dirdep") && !Excluded(path, w.excludes) && HomesOk(w, m, cwd)
    ensures var n, full := ParsePath(w, m, cwd, path, op, input, cached), Parent(p) + "/" + Base(p);
      && (!w.isDir(full) && op != WriteOp ==>
            n == if (cached && Parent(p) in m.seen) || IsCwd(cwd, p, op) then m
                 else Classify(w, m, Parent(p), r, Base(p), input))
      && (!w.isDir(full) && op == WriteOp ==> n == m)
      && (w.isDir(full) && op == ReadOp ==>
            n == if (cached && Parent(p) in m.seen) || Home(w, m, cwd, full) then m else m.(lastDir := full))
  {}

  lemma ParentIsDir(w: World, p: string)
    requires Lawful(w) && Canonical(p) && w.present(p)
    ensures var d := Parent(p);
      d != "" && w.isDir(d) && w.present(d) && Canonical(d) && w.isDir(d + "/" + Base(p)) == w.isDir(p)
  {
    assert PathLaws(w, p);
    Rebuilt(w, p);
    if p == "/" { RootParts(); } else { CanonicalSplit(p); }
    assert PathLaws(w, Parent(p));
  }

  /** What parse_path does with the file a plain name names. */
  lemma ParseNamed(w: World, m: Meta, cwd: string, x: string, op: Op, input: string, cached: bool)
    requires Lawful(w) && HomesOk(w, m, cwd) && Plain(cwd, x, m.lastDir) && w.present(Spelled(cwd, x))
    requires !EndsWith(x, ".dirdep") && !Excluded(x, w.excludes)
    ensures var n, p := ParsePath(w, m, cwd, x, op, input, cached), Spelled(cwd, x);
      var d := Parent(p);
      && d != "" && w.isDir(d) && Canonical(d)
      && (!w.isDir(p) && op != WriteOp ==>
            n == if (cached && d in m.seen) || IsCwd(cwd, p, op) then m
                 else Classify(w, m, d, Real(w, d), Base(p), input))
      && (!w.isDir(p) && op == WriteOp ==> n == m)
      && (w.isDir(p) && op == ReadOp ==> n == m || (n == m.(lastDir := n.lastDir) && w.isDir(n.lastDir)))
  {
    var p := Spelled(cwd, x);
    var d := Parent(p);
    ParentIsDir(w, p);
    NameResolves(w, x, cwd, m.lastDir);
    CanonicalResolves(w, d, cwd, Some(m.lastDir));
    ParseAt(w, m, cwd, x, p, op, input, cached, Real(w, d));
  }

  lemma BaseHasNoSlash(p: string)
    requires Canonical(p)
    ensures '/' !in Base(p)
  {
    if p == "/" { RootParts(); } else { CanonicalSplit(p); }
  }

  /** A name whose file parse_path gets down to. */
  predicate Counted(w: World, d: string, x: string) {
    && w.present(Spelled(d, x)) && !w.isDir(Spelled(d, x))
    && !EndsWith(x, ".dirdep") && !Excluded(x, w.excludes)
  }

  /** Reading or running a counted file is one step of the rules; anything else leaves the lists alone. */
  lemma ReadEffect(w: World, m: Meta, place: string -> string, cwd: string, x: string, op: Op, input: string,
                   cached: bool)
    requires Lawful(w) && Roots(w.srctops) && HomesOk(w, m, cwd) && Plain(cwd, x, m.lastDir) && LookedUp(w, cwd, x)
    requires op == ReadOp || (op == ExecOp && !w.isDir(Spelled(cwd, x)))
    ensures var n, p := ParsePath(w, m, cwd, x, op, input, cached), Spelled(cwd, x);
      && ListsOf(n) == (if Counted(w, cwd, x) && !IsCwd(cwd, p, op) then
                          Noted(RulesOf(w, m.cwd, place), ListsOf(m), p, input, cached)
                        else ListsOf(m))
      && n.cwd == m.cwd && n.pids == m.pids
      && (n.lastDir == m.lastDir || (w.isDir(p) && w.isDir(n.lastDir)))
  {
    var n, p := ParsePath(w, m, cwd, x, op, input, cached), Spelled(cwd, x);
    if !w.present(p) || EndsWith(x, ".dirdep") || Excluded(x, w.excludes) {
      NameResolves(w, x, cwd, m.lastDir);
      assert n == m;
    } else {
      ParseNamed(w, m, cwd, x, op, input, cached);
      if !w.isDir(p) && !IsCwd(cwd, p, op) {
        FileEffect(w, m, place, p, n, input, cached);
      }
    }
  }

  lemma FileEffect(w: World, m: Meta, place: string -> string, p: string, n: Meta, input: string, cached: bool)
    requires Lawful(w) && Roots(w.srctops) && Canonical(p) && w.isDir(Parent(p)) && Canonical(Parent(p))
    requires
      n == if cached && Parent(p) in m.seen then m else Classify(w, m, Parent(p), Real(w, Parent(p)), Base(p), input)
    ensures ListsOf(n) == Noted(RulesOf(w, m.cwd, place), ListsOf(m), p, input, cached)
    ensures n.cwd == m.cwd && n.pids == m.pids && n.lastDir == m.lastDir
  {
    var d := Parent(p);
    BaseHasNoSlash(p);
    assert PathLaws(w, d);
    ClassifyEffect(w, m, d, Base(p), input);
  }

  /** A path opened for writing never counts. */
  lemma WriteEffect(w: World, m: Meta, cwd: string, p: string, input: string, cached: bool)
    ensures var n := ParsePath(w, m, cwd, p, WriteOp, input, cached);
      n == m || (n == m.(lastDir := n.lastDir) && w.isDir(n.lastDir))
  {}

  lemma WriteMissing(w: World, m: Meta, cwd: string, x: string, input: string, cached: bool)
    requires Lawful(w) && HomesOk(w, m, cwd) && Plain(cwd, x, m.lastDir) && !w.isDir(Spelled(cwd, x))
    requires "./" <= x && !EndsWith(x, ".dirdep") && !Excluded(x, w.excludes)
    ensures ParsePath(w, m, cwd, x, WriteOp, input, cached) == m
  {
    var p := Spelled(cwd, x);
    var d := Parent(p);
    NameResolves(w, x, cwd, m.lastDir);
    assert PathLaws(w, p);
    Rebuilt(w, p);
    if p == "/" { RootParts(); } else { CanonicalSplit(p); }
    CanonicalResolves(w, d, cwd, Some(m.lastDir));
    ParseAt(w, m, cwd, x, p, WriteOp, input, cached, DirNames(w, m, cwd, d).1);
  }

  /** And one that is no directory leaves no trace at all. */
  lemma WriteNothing(w: World, m: Meta, cwd: string, x: string, input: string, cached: bool)
    requires Lawful(w) && HomesOk(w, m, cwd) && Plain(cwd, x, m.lastDir) && !w.isDir(Spelled(cwd, x))
    ensures ParsePath(w, m, cwd, x, WriteOp, input, cached) == m
  {
    NameResolves(w, x, cwd, m.lastDir);
    var p := Spelled(cwd, x);
    if !EndsWith(x, ".dirdep") && !Excluded(x, w.excludes) {
      if w.present(p) {
        ParseNamed(w, m, cwd, x, WriteOp, input, cached);
      } else if "./" <= x {
        WriteMissing(w, m, cwd, x, input, cached);
      }
    }
  }

  // ---- what the cache hides -------------------------------------------------------------------

  /** Directory d is a symbolic link within the source trees, to a source directory of another name: its
      file puts the real directory into `seen` without listing it. */
  predicate Hides(w: World, home: string, d: string) {
    var r := Real(w, d);
    && !Ignored(w, home, d) && r.Some? && !Ignored(w, home, r.value)
    && SrcName(w, d).Some? && !InObjects(w, d)
    && SrcName(w, r.value).Some? && SrcName(w, r.value) != SrcName(w, d)
  }

  /** A file p of a hiding directory, and a file q of the directory it hides. */
  predicate HiddenPair(w: World, home: string, p: string, q: string) {
    Readable(w, p) && Readable(w, q) && Hides(w, home, Parent(p)) && Some(Parent(q)) == Real(w, Parent(p))
  }

  ghost predicate NothingHidden(w: World, home: string) {
    forall p, q :: !HiddenPair(w, home, p, q)
  }

  lemma ReadableParent(w: World, p: string)
    requires Lawful(w) && Readable(w, p)
    ensures p != "/" && Canonical(Parent(p)) && w.isDir(Parent(p))
  {
    assert PathLaws(w, p);
    RootParts();
    CanonicalSplit(p);
  }

  /** Unless it hides, a link gives all that the real directory it marks would give. */
  lemma LinkGivesAll(w: World, home: string, d: string, r: string)
    requires Real(w, d) == Some(r) && Real(w, r) == None && r in Marks(w, d)
    requires !Hides(w, home, d) && !Ignored(w, home, d) && !Ignored(w, home, r)
    ensures Within(Contribution(w, r), Contribution(w, d))
  {}

  lemma MarksHonest(w: World, home: string, place: string -> string, p: string, mark: string)
    requires Setting(w, home) && NothingHidden(w, home) && Readable(w, p) && !Ignored(w, home, Parent(p))
    requires mark in Marks(w, Parent(p))
    ensures DirOf(w, place, mark) == mark
    ensures var k := RulesOf(w, home, place);
      Ignored(w, home, mark) || Unread(k, mark) || Within(Contribution(w, mark), Contribution(w, Parent(p)))
  {
    var d, k := Parent(p), RulesOf(w, home, place);
    ReadableParent(w, p);
    assert PathLaws(w, d);
    if mark != d && !Unread(k, mark) && !Ignored(w, home, mark) {
      var q :| k.counts(q) && k.parent(q) == mark;
      assert !HiddenPair(w, home, p, q);
      LinkGivesAll(w, home, d, mark);
    }
  }

  lemma ReadableHonest(w: World, home: string, place: string -> string, p: string)
    requires Setting(w, home) && NothingHidden(w, home) && Readable(w, p)
    ensures DirOf(w, place, Parent(p)) == Parent(p)
    ensures !Ignored(w, home, Parent(p)) ==> Honest(RulesOf(w, home, place), Parent(p))
  {
    ReadableParent(w, p);
    if !Ignored(w, home, Parent(p)) {
      forall mark | mark in Marks(w, Parent(p))
        ensures DirOf(w, place, mark) == mark
        ensures Ignored(w, home, mark) || Unread(RulesOf(w, home, place), mark)
             || Within(Contribution(w, mark), Contribution(w, Parent(p)))
      {
        MarksHonest(w, home, place, p, mark);
      }
    }
  }

  // ---- records ----------------------------------------------------------------------------------

  /** The claim is about traces of absolute names, and about traces with relative names as well. */
  datatype Kind = Absolute | WithRelative

  /** A name the claim covers, used by a process in directory d: the path it spells is canonical, a relative name
      of an excluded file is itself excluded, and one that is not looked up is that of a file. */
  predicate Names(w: World, kind: Kind, d: string, x: string) {
    && Canonical(Spelled(d, x)) && LookedUp(w, d, x)
    && ("/" <= x
        || (kind.WithRelative? && d != "" && (Excluded(Spelled(d, x), w.excludes) ==> Excluded(x, w.excludes))))
  }

  /** Where relative names are in use, no name is that of a directory: reading one would move last_dir. */
  predicate NoDirectory(w: World, kind: Kind, d: string, x: string) { kind.WithRelative? ==> !w.isDir(Spelled(d, x)) }

  /** The name a record has parse_path read. */
  function NameOf(r: Record): string
    requires r.IsFileOp()
  {
    if r.Link? then Strip(r.path, '\'') else r.path
  }

  predicate IsSkipped(r: Record) { r.Read? && r.path == "." }

  /** A record the claim covers, of a process in directory d. A read of "." is skipped by the loop. */
  predicate FileRecord(w: World, kind: Kind, d: string, r: Record)
    requires r.IsFileOp()
  {
    match r
    case Exec(_, x) => Names(w, kind, d, x) && !w.isDir(Spelled(d, x))
    case Read(_, x) => x == "." || (Names(w, kind, d, x) && NoDirectory(w, kind, d, x))
    case Link(_, a, b) =>
      var x, y := Strip(a, '\''), Strip(b, '\'');
      && Names(w, kind, d, x) && NoDirectory(w, kind, d, x) && ("/" <= a ==> a == x)
      && (kind.WithRelative? ==> Canonical(Spelled(d, y)) && ("/" <= y || d != "") && NoDirectory(w, kind, d, y))
  }

  /** The raw token of the record stands for a file of the directory that place says. */
  predicate TokenPlaced(place: string -> string, d: string, r: Record)
    requires r.IsFileOp()
  {
    IsSkipped(r) || "/" <= r.path || place(r.path) == Parent(Spelled(d, NameOf(r)))
  }

  // ---- the two parsers side by side -----------------------------------------------------------

  /** The lists agree, and whatever the cache holds may be skipped. */
  ghost predicate Agree(w: World, home: string, place: string -> string, c: Meta, u: Meta) {
    && c.srcDeps == u.srcDeps && c.objDeps == u.objDeps && c.cwd == u.cwd
    && SeenCovered(RulesOf(w, home, place), ListsOf(c))
  }

  /** last_dir of a process in directory dir: some directory, or dir itself; where relative names are in use, dir. */
  predicate Tied(w: World, kind: Kind, last: string, dir: string) {
    last == dir || (kind.Absolute? && w.isDir(last))
  }

  /** One name, read as token by both parsers. */
  lemma ReadAgrees(w: World, home: string, place: string -> string, kind: Kind, c: Meta, u: Meta, cwd: string,
                   x: string, op: Op, token: string)
    requires Setting(w, home) && NothingHidden(w, home)
    requires Agree(w, home, place, c, u) && c.cwd == home
    requires Tied(w, kind, c.lastDir, cwd) && Tied(w, kind, u.lastDir, cwd)
    requires Names(w, kind, cwd, x) && NoDirectory(w, kind, cwd, x)
    requires op == ReadOp || (op == ExecOp && !w.isDir(Spelled(cwd, x)))
    requires if "/" <= token then token == x else place(token) == Parent(Spelled(cwd, x))
    ensures var v, n := ParsePath(w, u, cwd, x, op, token, false), ParsePath(w, c, cwd, x, op, token, true);
      && (token in c.seen ==> Agree(w, home, place, c, v)) && Agree(w, home, place, n, v)
      && Tied(w, kind, n.lastDir, cwd) && Tied(w, kind, v.lastDir, cwd)
  {
    var p, k := Spelled(cwd, x), RulesOf(w, home, place);
    ReadEffect(w, c, place, cwd, x, op, token, true);
    ReadEffect(w, u, place, cwd, x, op, token, false);
    if Counted(w, cwd, x) {
      CountedIsReadable(w, kind, cwd, x);
      ReadableHonest(w, home, place, p);
      NoteAgrees(k, ListsOf(c), ListsOf(u), p, token);
    }
  }

  lemma CountedIsReadable(w: World, kind: Kind, d: string, x: string)
    requires Names(w, kind, d, x) && Counted(w, d, x)
    ensures Readable(w, Spelled(d, x))
  {
    if !("/" <= x) {
      NameSpelt(d, x);
    }
  }

  /** The target of a link, opened for writing by both parsers. */
  lemma TargetAgrees(w: World, home: string, place: string -> string, kind: Kind, c: Meta, u: Meta, cwd: string,
                     y: string, token: string)
    requires Setting(w, home) && Agree(w, home, place, c, u) && c.cwd == home
    requires Tied(w, kind, c.lastDir, cwd) && Tied(w, kind, u.lastDir, cwd)
    requires kind.WithRelative? ==> Plain(cwd, y, cwd) && !w.isDir(Spelled(cwd, y))
    ensures var n, v := ParsePath(w, c, cwd, y, WriteOp, token, true), ParsePath(w, u, cwd, y, WriteOp, token, false);
      && Agree(w, home, place, n, v) && Agree(w, home, place, c, v)
      && Tied(w, kind, n.lastDir, cwd) && Tied(w, kind, v.lastDir, cwd)
  {
    WriteEffect(w, c, cwd, y, token, true);
    WriteEffect(w, u, cwd, y, token, false);
    if kind.WithRelative? {
      WriteNothing(w, c, cwd, y, token, true);
      WriteNothing(w, u, cwd, y, token, false);
    }
  }

  lemma LinkAgrees(w: World, home: string, place: string -> string, kind: Kind, c: Meta, u: Meta, cwd: string,
                   r: Record)
    requires Setting(w, home) && NothingHidden(w, home) && r.Link?
    requires FileRecord(w, kind, cwd, r) && TokenPlaced(place, cwd, r)
    requires Agree(w, home, place, c, u) && c.cwd == home
    requires Tied(w, kind, c.lastDir, cwd) && Tied(w, kind, u.lastDir, cwd)
    ensures var x, y := Strip(r.path, '\''), Strip(r.target, '\'');
      var n := ParsePath(w, ParsePath(w, c, cwd, x, ReadOp, r.path, true), cwd, y, WriteOp, r.path, true);
      var v := ParsePath(w, ParsePath(w, u, cwd, x, ReadOp, r.path, false), cwd, y, WriteOp, r.path, false);
      && (r.path in c.seen ==> Agree(w, home, place, c, v)) && Agree(w, home, place, n, v)
      && Tied(w, kind, n.lastDir, cwd) && Tied(w, kind, v.lastDir, cwd)
  {
    var x, y := Strip(r.path, '\''), Strip(r.target, '\'');
    ReadAgrees(w, home, place, kind, c, u, cwd, x, ReadOp, r.path);
    var c1, u1 := ParsePath(w, c, cwd, x, ReadOp, r.path, true), ParsePath(w, u, cwd, x, ReadOp, r.path, false);
    ParsePathFrame(w, c, cwd, x, ReadOp, r.path, true);
    TargetAgrees(w, home, place, kind, c1, u1, cwd, y, r.path);
    if r.path in c.seen {
      TargetAgrees(w, home, place, kind, c, u1, cwd, y, r.path);
    }
  }

  lemma ExecAgrees(w: World, home: string, place: string -> string, kind: Kind, c: Loop, u: Loop, r: Record)
    requires Setting(w, home) && NothingHidden(w, home) && r.Exec?
    requires FileRecord(w, kind, c.cwd, r) && TokenPlaced(place, c.cwd, r)
    requires Agree(w, home, place, c.m, u.m) && c.m.cwd == home && c.cwd == u.cwd
    requires Tied(w, kind, c.m.lastDir, c.cwd) && Tied(w, kind, u.m.lastDir, c.cwd)
    ensures var n, v := FileOp(w, c, r, true).m, FileOp(w, u, r, false).m;
      Agree(w, home, place, n, v) && Tied(w, kind, n.lastDir, c.cwd) && Tied(w, kind, v.lastDir, c.cwd)
  {
    var x := r.path;
    var c1, u1 := c.m.(pids := c.m.pids[r.pid := x]), u.m.(pids := u.m.pids[r.pid := x]);
    AgreeMoved(w, home, place, c.m, u.m, c1, u1);
    ReadAgrees(w, home, place, kind, c1, u1, c.cwd, x, ExecOp, x);
    var v := ParsePath(w, u1, c.cwd, x, ExecOp, x, false);
    assert FileOp(w, u, r, false).m == v;
    if x in c.m.seen {
      AgreeMoved(w, home, place, c1, v, c.m, v);
    }
  }

  lemma FileOpAgrees(w: World, home: string, place: string -> string, kind: Kind, c: Loop, u: Loop, r: Record)
    requires Setting(w, home) && NothingHidden(w, home) && r.IsFileOp()
    requires FileRecord(w, kind, c.cwd, r) && TokenPlaced(place, c.cwd, r)
    requires Agree(w, home, place, c.m, u.m) && c.m.cwd == home && c.cwd == u.cwd
    requires Tied(w, kind, c.m.lastDir, c.cwd) && Tied(w, kind, u.m.lastDir, c.cwd)
    ensures var n, v := FileOp(w, c, r, true).m, FileOp(w, u, r, false).m;
      Agree(w, home, place, n, v) && Tied(w, kind, n.lastDir, c.cwd) && Tied(w, kind, v.lastDir, c.cwd)
  {
    match r
    case Exec(_, _) => ExecAgrees(w, home, place, kind, c, u, r);
    case Read(_, x) =>
      if x != "." { ReadAgrees(w, home, place, kind, c.m, u.m, c.cwd, x, ReadOp, x); }
    case Link(_, _, _) => LinkAgrees(w, home, place, kind, c.m, u.m, c.cwd, r);
  }

  /** last_dir and the directory of every process are tied. */
  ghost predicate Tethered(w: World, kind: Kind, s: Loop) {
    && Tied(w, kind, s.m.lastDir, s.cwd) && Get(s.pidCwd, s.lastPid, s.m.cwd) == s.cwd
    && (forall pid :: Tied(w, kind, Get(s.pidLastDir, pid, s.m.cwd), Get(s.pidCwd, pid, s.m.cwd)))
    && (s.skip ==> s.pidCwd == map[] && s.pidLastDir == map[])
  }

  ghost predicate LoopsAgree(w: World, home: string, place: string -> string, kind: Kind, c: Loop, u: Loop) {
    && ControlOf(c) == ControlOf(u) && Agree(w, home, place, c.m, u.m) && (!c.skip ==> c.m.cwd == home)
    && Tethered(w, kind, c) && Tethered(w, kind, u)
  }

  /** Agreement is about the lists, not about where the parser stands. */
  lemma AgreeMoved(w: World, home: string, place: string -> string, c: Meta, u: Meta, c1: Meta, u1: Meta)
    requires Agree(w, home, place, c, u) && c1 == c.(pids := c1.pids, lastDir := c1.lastDir)
    requires u1 == u.(pids := u1.pids, lastDir := u1.lastDir)
    ensures Agree(w, home, place, c1, u1)
  {}

  /** What the claim asks of record r when control is at k. */
  predicate Fits(w: World, home: string, place: string -> string, kind: Kind, k: Control, r: Record) {
    if k.skip then (r.Cwd? ==> r.dir == home) && (r.Version? ==> k.home == home)
    else
      r.IsFileOp() ==> FileRecord(w, kind, CwdFor(k, r.pid), r) && TokenPlaced(place, CwdFor(k, r.pid), r)
  }

  lemma SwitchTethered(w: World, kind: Kind, s: Loop, pid: int)
    requires Tethered(w, kind, s) && !s.skip
    ensures Tethered(w, kind, Switch(s, pid))
  {
    var n := Switch(s, pid);
    forall p ensures Tied(w, kind, Get(n.pidLastDir, p, n.m.cwd), Get(n.pidCwd, p, n.m.cwd)) {
      assert Tied(w, kind, Get(s.pidLastDir, p, s.m.cwd), Get(s.pidCwd, p, s.m.cwd));
    }
    assert Tied(w, kind, Get(s.pidLastDir, pid, s.m.cwd), Get(s.pidCwd, pid, s.m.cwd));
  }

  lemma SwitchAgrees(w: World, home: string, place: string -> string, kind: Kind, c: Loop, u: Loop, pid: int)
    requires LoopsAgree(w, home, place, kind, c, u) && !c.skip
    ensures LoopsAgree(w, home, place, kind, Switch(c, pid), Switch(u, pid))
  {
    SwitchControl(c, pid);
    SwitchControl(u, pid);
    AgreeMoved(w, home, place, c.m, u.m, Switch(c, pid).m, Switch(u, pid).m);
    SwitchTethered(w, kind, c, pid);
    SwitchTethered(w, kind, u, pid);
  }

  /** A process moves to directory d. */
  function Moved(s: Loop, pid: int, d: string): Loop {
    s.(cwd := d, m := s.m.(lastDir := d), pidLastDir := s.pidLastDir[pid := d], pidCwd := s.pidCwd[pid := d])
  }

  lemma MoveAgrees(w: World, home: string, place: string -> string, kind: Kind, c: Loop, u: Loop, pid: int, d: string)
    requires LoopsAgree(w, home, place, kind, c, u) && c.lastPid == pid && !c.skip
    ensures LoopsAgree(w, home, place, kind, Moved(c, pid, d), Moved(u, pid, d))
  {
    AgreeMoved(w, home, place, c.m, u.m, Moved(c, pid, d).m, Moved(u, pid, d).m);
    MoveTethered(w, kind, c, pid, d);
    MoveTethered(w, kind, u, pid, d);
  }

  lemma MoveTethered(w: World, kind: Kind, s: Loop, pid: int, d: string)
    requires Tethered(w, kind, s) && !s.skip && s.lastPid == pid
    ensures Tethered(w, kind, Moved(s, pid, d))
  {
    var n := Moved(s, pid, d);
    forall p ensures Tied(w, kind, Get(n.pidLastDir, p, n.m.cwd), Get(n.pidCwd, p, n.m.cwd)) {
      assert Tied(w, kind, Get(s.pidLastDir, p, s.m.cwd), Get(s.pidCwd, p, s.m.cwd));
    }
  }

  /** A child starts where its parent is. */
  function Forked(s: Loop, child: int): Loop {
    s.(pidCwd := s.pidCwd[child := s.cwd], pidLastDir := s.pidLastDir[child := s.cwd], lastPid := child)
  }

  lemma BirthAgrees(w: World, home: string, place: string -> string, kind: Kind, c: Loop, u: Loop, child: int)
    requires LoopsAgree(w, home, place, kind, c, u) && !c.skip
    ensures LoopsAgree(w, home, place, kind, Forked(c, child), Forked(u, child))
  {
    BirthTethered(w, kind, c, child);
    BirthTethered(w, kind, u, child);
  }

  lemma BirthTethered(w: World, kind: Kind, s: Loop, child: int)
    requires Tethered(w, kind, s) && !s.skip
    ensures Tethered(w, kind, Forked(s, child))
  {
    var n := Forked(s, child);
    forall p ensures Tied(w, kind, Get(n.pidLastDir, p, n.m.cwd), Get(n.pidCwd, p, n.m.cwd)) {
      assert Tied(w, kind, Get(s.pidLastDir, p, s.m.cwd), Get(s.pidCwd, p, s.m.cwd));
    }
  }

  /** A directory whose files never count may be remembered at any time. */
  lemma SeenMore(w: World, home: string, place: string -> string, l: Lists, d: string)
    requires SeenCovered(RulesOf(w, home, place), l) && "/" <= d && w.isDir(d) && Ignored(w, home, d)
    ensures SeenCovered(RulesOf(w, home, place), l.(seen := l.seen + {d}))
  {
    var n, k := l.(seen := l.seen + {d}), RulesOf(w, home, place);
    assert DirOf(w, place, d) == d;
    forall token | token in n.seen ensures SeenCache.Covered(k, n, k.dirOf(token)) {
      if token in l.seen {
        assert SeenCache.Covered(k, l, k.dirOf(token));
      }
    }
  }

  lemma HeaderAgrees(w: World, home: string, place: string -> string, kind: Kind, c: Loop, u: Loop, r: Record)
    requires Setting(w, home) && LoopsAgree(w, home, place, kind, c, u) && Fits(w, home, place, kind, ControlOf(c), r)
    requires c.skip && !c.failed
    ensures LoopsAgree(w, home, place, kind, Step(w, c, r, true), Step(w, u, r, false))
  {
    if r.Cwd? {
      SeenMore(w, home, place, ListsOf(c.m), home);
    }
  }

  lemma ForkAgrees(w: World, home: string, place: string -> string, kind: Kind, c: Loop, u: Loop, r: Record)
    requires LoopsAgree(w, home, place, kind, c, u) && !c.skip && !c.failed && r.Fork?
    ensures LoopsAgree(w, home, place, kind, Step(w, c, r, true), Step(w, u, r, false))
  {
    SwitchAgrees(w, home, place, kind, c, u, r.pid);
    BirthAgrees(w, home, place, kind, Switch(c, r.pid), Switch(u, r.pid), r.child);
    assert Step(w, c, r, true) == Forked(Switch(c, r.pid), r.child);
    assert Step(w, u, r, false) == Forked(Switch(u, r.pid), r.child);
  }

  lemma ChdirAgrees(w: World, home: string, place: string -> string, kind: Kind, c: Loop, u: Loop, r: Record)
    requires LoopsAgree(w, home, place, kind, c, u) && !c.skip && !c.failed && r.Chdir?
    requires Fits(w, home, place, kind, ControlOf(c), r)
    ensures LoopsAgree(w, home, place, kind, Step(w, c, r, true), Step(w, u, r, false))
  {
    SwitchAgrees(w, home, place, kind, c, u, r.pid);
    SwitchControl(c, r.pid);
    var c1, u1 := Switch(c, r.pid), Switch(u, r.pid);
    var d := ChdirTo(w, c1.cwd, r.dir);
    MoveAgrees(w, home, place, kind, c1, u1, r.pid, d);
    assert Step(w, c, r, true) == Moved(c1, r.pid, d);
    assert Step(w, u, r, false) == Moved(u1, r.pid, d);
  }

  lemma ExitAgrees(w: World, home: string, place: string -> string, kind: Kind, c: Loop, u: Loop, r: Record)
    requires LoopsAgree(w, home, place, kind, c, u) && !c.skip && !c.failed && r.Exit?
    ensures LoopsAgree(w, home, place, kind, Step(w, c, r, true), Step(w, u, r, false))
  {
    SwitchAgrees(w, home, place, kind, c, u, r.pid);
    var c1, u1 := Switch(c, r.pid), Switch(u, r.pid);
    var cm, um := c1.m.(pids := c1.m.pids - {r.pid}), u1.m.(pids := u1.m.pids - {r.pid});
    AgreeMoved(w, home, place, c1.m, u1.m, cm, um);
    assert Step(w, c, r, true) == c1.(m := cm);
    assert Step(w, u, r, false) == u1.(m := um);
  }

  lemma FilesAgree(w: World, home: string, place: string -> string, kind: Kind, c: Loop, u: Loop, r: Record)
    requires Setting(w, home) && NothingHidden(w, home) && r.IsFileOp()
    requires FileRecord(w, kind, c.cwd, r) && TokenPlaced(place, c.cwd, r)
    requires LoopsAgree(w, home, place, kind, c, u) && !c.skip
    ensures LoopsAgree(w, home, place, kind, FileOp(w, c, r, true), FileOp(w, u, r, false))
  {
    FileOpAgrees(w, home, place, kind, c, u, r);
    FileOpFrame(w, c, r, true);
    FileOpFrame(w, u, r, false);
  }

  lemma StepAgrees(w: World, home: string, place: string -> string, kind: Kind, c: Loop, u: Loop, r: Record)
    requires Setting(w, home) && NothingHidden(w, home)
    requires LoopsAgree(w, home, place, kind, c, u) && (!c.failed ==> Fits(w, home, place, kind, ControlOf(c), r))
    ensures LoopsAgree(w, home, place, kind, Step(w, c, r, true), Step(w, u, r, false))
  {
    if c.failed {
    } else if c.skip {
      HeaderAgrees(w, home, place, kind, c, u, r);
    } else if r.IsFileOp() {
      SwitchAgrees(w, home, place, kind, c, u, r.pid);
      SwitchControl(c, r.pid);
      FilesAgree(w, home, place, kind, Switch(c, r.pid), Switch(u, r.pid), r);
    } else if r.Fork? {
      ForkAgrees(w, home, place, kind, c, u, r);
    } else if r.Chdir? {
      ChdirAgrees(w, home, place, kind, c, u, r);
    } else if r.Exit? {
      ExitAgrees(w, home, place, kind, c, u, r);
    } else {
      StrayAgrees(w, home, place, kind, c, u, r);
    }
  }

  lemma StrayKeeps(w: World, s: Loop, r: Record, cached: bool)
    requires !s.skip && !s.failed && !r.HasPid()
    ensures var n := Step(w, s, r, cached); n == s.(failed := IsHeader(r), bye := n.bye)
  {}

  lemma StrayAgrees(w: World, home: string, place: string -> string, kind: Kind, c: Loop, u: Loop, r: Record)
    requires LoopsAgree(w, home, place, kind, c, u) && !c.skip && !c.failed && !r.HasPid()
    ensures LoopsAgree(w, home, place, kind, Step(w, c, r, true), Step(w, u, r, false))
  {
    StrayKeeps(w, c, r, true);
    StrayKeeps(w, u, r, false);
    HeaderControl(w, c, r, true);
    HeaderControl(w, u, r, false);
  }

  // ---- whole traces ---------------------------------------------------------------------------

  /** Record i of the trace as the claim wants it, in terms of the plain model of directories: one CWD, and
      names as above. */
  predicate FitsAt(w: World, home: string, start: string, kind: Kind, t: seq<Record>, i: nat)
    requires i < |t|
  {
    var r, before := t[i], t[..i];
    if !HasVersion(before) then
      && (r.Cwd? ==> r.dir == home)
      && (r.Version? ==> CwdOf(Chdirs(w), start, before, 0) == home)
    else
      r.IsFileOp() ==> FileRecord(w, kind, CwdOf(Chdirs(w), start, before, r.pid), r)
  }

  predicate AllFit(w: World, home: string, start: string, kind: Kind, t: seq<Record>) {
    forall i :: 0 <= i < |t| ==> FitsAt(w, home, start, kind, t, i)
  }

  /** Record i names a file, and not by an absolute token. */
  predicate Uses(t: seq<Record>, i: nat) {
    i < |t| && HasVersion(t[..i]) && t[i].IsFileOp() && !IsSkipped(t[i]) && !("/" <= t[i].path)
  }

  /** The directory of the file that record i names. */
  function FileDir(w: World, start: string, t: seq<Record>, i: nat): string
    requires Uses(t, i)
  {
    Parent(Spelled(CwdOf(Chdirs(w), start, t[..i], t[i].pid), NameOf(t[i])))
  }

  /** Each raw token names files of one directory: a relative name is used from one directory only. */
  predicate OneDirEach(w: World, start: string, t: seq<Record>) {
    forall i: nat, j: nat :: i < |t| && j < |t| && Uses(t, i) && Uses(t, j) && t[i].path == t[j].path ==>
      FileDir(w, start, t, i) == FileDir(w, start, t, j)
  }

  predicate Placed(w: World, start: string, place: string -> string, t: seq<Record>) {
    forall i: nat :: i < |t| && Uses(t, i) ==> place(t[i].path) == FileDir(w, start, t, i)
  }

  lemma PrefixFits(w: World, home: string, start: string, place: string -> string, kind: Kind, t: seq<Record>)
    requires t != [] && AllFit(w, home, start, kind, t) && Placed(w, start, place, t)
    ensures AllFit(w, home, start, kind, t[..|t| - 1]) && Placed(w, start, place, t[..|t| - 1])
  {
    var p := t[..|t| - 1];
    forall i: nat | i < |p|
      ensures FitsAt(w, home, start, kind, p, i)
      ensures Uses(p, i) ==> place(p[i].path) == FileDir(w, start, p, i)
    {
      assert p[..i] == t[..i];
      assert FitsAt(w, home, start, kind, t, i);
      assert Uses(t, i) == Uses(p, i);
    }
  }

  lemma {:induction false} HeaderHome(chdir: (string, string) -> string, start: string, t: seq<Record>)
    requires !HasVersion(t)
    ensures Controls(chdir, start, t).home == Controls(chdir, start, t).cwd
    ensures Controls(chdir, start, t).skip && !Controls(chdir, start, t).failed
    decreases |t|
  {
    if t != [] {
      HasVersionSnoc(t);
      HeaderHome(chdir, start, t[..|t| - 1]);
    }
  }

  /** The last record fits the state the parser is really in. */
  lemma LastFits(w: World, home: string, start: string, place: string -> string, kind: Kind, t: seq<Record>)
    requires t != [] && FitsAt(w, home, start, kind, t, |t| - 1) && Placed(w, start, place, t)
    requires !Controls(Chdirs(w), start, t[..|t| - 1]).failed
    ensures Fits(w, home, place, kind, Controls(Chdirs(w), start, t[..|t| - 1]), t[|t| - 1])
  {
    var p, r := t[..|t| - 1], t[|t| - 1];
    ControlRefines(Chdirs(w), start, p);
    if !HasVersion(p) {
      HeaderHome(Chdirs(w), start, p);
      assert CwdFor(Controls(Chdirs(w), start, p), 0) == CwdOf(Chdirs(w), start, p, 0);
    } else if r.IsFileOp() {
      assert CwdFor(Controls(Chdirs(w), start, p), r.pid) == CwdOf(Chdirs(w), start, p, r.pid);
      assert Uses(t, |t| - 1) ==> place(r.path) == FileDir(w, start, t, |t| - 1);
    }
  }

  /** Along every fitting trace the two parsers agree. */
  lemma {:induction false} RunsAgree(w: World, home: string, place: string -> string, kind: Kind, c: Meta, u: Meta,
                                     t: seq<Record>)
    requires Setting(w, home) && NothingHidden(w, home)
    requires Agree(w, home, place, c, u) && AllFit(w, home, c.cwd, kind, t) && Placed(w, c.cwd, place, t)
    ensures LoopsAgree(w, home, place, kind, Run(w, c, t, true), Run(w, u, t, false))
    decreases |t|
  {
    if t == [] {
      StartsAgree(w, home, place, kind, c, u);
    } else {
      var p := t[..|t| - 1];
      PrefixFits(w, home, c.cwd, place, kind, t);
      RunsAgree(w, home, place, kind, c, u, p);
      RunControl(w, c, p, true);
      if !Run(w, c, p, true).failed {
        LastFits(w, home, c.cwd, place, kind, t);
      }
      StepAgrees(w, home, place, kind, Run(w, c, p, true), Run(w, u, p, false), t[|t| - 1]);
    }
  }

  lemma StartsAgree(w: World, home: string, place: string -> string, kind: Kind, c: Meta, u: Meta)
    requires Setting(w, home) && Agree(w, home, place, c, u)
    ensures LoopsAgree(w, home, place, kind, Start(w, c), Start(w, u))
  {
    if w.curdir.Some? {
      SeenMore(w, home, place, ListsOf(c), w.curdir.value);
    }
  }
}
