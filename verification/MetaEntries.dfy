/** What the entries of src_deps and obj_deps are: directories without the root they lie under, and those of another
    machine with its name behind them. */
module MetaEntries {
  import opened Wrappers
  import opened PyStrings
  import opened CleanPath
  import opened MetaSpec
  import opened MetaProcess
  import opened SeenCache
  import opened MetaCache

  /** root starts d and occurs in no other place. */
  ghost predicate Once(root: string, d: string) {
    root != "" && root <= d && forall k :: OccursAt(d, root, k) ==> k == 0
  }

  /** The first root of the list that starts the path is this one. */
  predicate RootOf(path: string, tops: seq<string>, root: string) { FindTop(path, tops) == Some(root) }

  /** d is rest under source root top. */
  ghost predicate SourceDir(w: World, d: string, top: string, rest: string) {
    RootOf(d + "/", w.srctops, top) && d == top + rest && Once(top, d)
  }

  lemma SourceName(w: World, d: string, top: string, rest: string)
    requires SourceDir(w, d, top, rest)
    ensures SrcName(w, d) == Some(rest)
  {
    RemoveRoot(top, rest);
  }

  /** d is rest, built for machine, under object root root. */
  ghost predicate ObjectDir(w: World, d: string, root: string, machine: string, rest: string) {
    && RootOf(d, w.objroots, root) && d == root + machine + "/" + rest && Once(root, d)
    && machine != "" && '/' !in machine && rest != ""
  }

  /** Nothing is said of the machine built for, nor of the host's own when that is built for. */
  predicate Native(w: World, machine: string) {
    machine == w.machine || (w.machine == "host" && w.hostTarget == Some(machine))
  }

  function ObjectEntry(w: World, machine: string, rest: string): string {
    if w.machine == "none" then machine + "/" + rest
    else if Native(w, machine) then rest
    else rest + "." + machine
  }

  lemma ObjectName(w: World, d: string, root: string, machine: string, rest: string)
    requires ObjectDir(w, d, root, machine, rest)
    ensures InObjects(w, d) && ObjName(w, d) == Some(ObjectEntry(w, machine, rest))
  {
    var rel := machine + "/" + rest;
    assert d == root + rel;
    RemoveRoot(root, rel);
    MachineAndRestExactly(rel, machine, rest);
  }

  // ---- what a read lists ------------------------------------------------------------------------

  /** A file of directory d, named absolutely, that gets down to the lists. */
  ghost predicate ReadIn(w: World, m: Meta, cwd: string, p: string, d: string) {
    && Lawful(w) && Roots(w.srctops) && HomesOk(w, m, cwd) && w.isDir(cwd)
    && Readable(w, p) && Parent(p) == d && !Ignored(w, m.cwd, d)
  }

  lemma ReadLists(w: World, m: Meta, cwd: string, p: string, d: string, cached: bool)
    requires ReadIn(w, m, cwd, p, d) && (cached ==> d !in m.seen)
    ensures var n := ParsePath(w, m, cwd, p, ReadOp, p, cached);
      && n.srcDeps == AddOpt(m.srcDeps, Contribution(w, d).0) && n.objDeps == AddOpt(m.objDeps, Contribution(w, d).1)
      && n.seen == m.seen + Marks(w, d) + {p}
  {
    assert PathLaws(w, p);
    Rebuilt(w, p);
    assert Spelled(cwd, p) == p && "/" <= p;
    ReadEffect(w, m, _ => "", cwd, p, ReadOp, p, cached);
  }

  /** A file of a source directory lists it by its path under the root. */
  lemma SourceListed(w: World, m: Meta, cwd: string, p: string, d: string, top: string, rest: string, cached: bool)
    requires ReadIn(w, m, cwd, p, d) && (cached ==> d !in m.seen) && Real(w, d) == None && SourceDir(w, d, top, rest)
    ensures var n := ParsePath(w, m, cwd, p, ReadOp, p, cached);
      n.srcDeps == Add(m.srcDeps, rest) && n.objDeps == m.objDeps && n.seen == m.seen + {d, p}
  {
    ReadLists(w, m, cwd, p, d, cached);
    SourceName(w, d, top, rest);
  }

  /** One of an object directory lists its path under the machine, and the machine behind it unless that is native. */
  lemma ObjectListed(w: World, m: Meta, cwd: string, p: string, d: string, root: string, machine: string, rest: string,
                     cached: bool)
    requires ReadIn(w, m, cwd, p, d) && (cached ==> d !in m.seen) && Real(w, d) == None
    requires ObjectDir(w, d, root, machine, rest) && SrcName(w, d) == None
    ensures var n := ParsePath(w, m, cwd, p, ReadOp, p, cached);
      && n.objDeps == Add(m.objDeps, ObjectEntry(w, machine, rest)) && n.srcDeps == m.srcDeps
      && n.seen == m.seen + {d, p}
  {
    ReadLists(w, m, cwd, p, d, cached);
    ObjectName(w, d, root, machine, rest);
  }

  /** A directory that is a link between the two kinds of trees is listed as both. */
  lemma LinkListsBoth(w: World, m: Meta, cwd: string, p: string, d: string, s: string, o: string, top: string,
                      rest: string, root: string, machine: string, orest: string, cached: bool)
    requires ReadIn(w, m, cwd, p, d) && (cached ==> d !in m.seen)
    requires SourceDir(w, s, top, rest) && ObjectDir(w, o, root, machine, orest)
    requires !InObjects(w, s) && SrcName(w, o) == None
    requires (d == s && Real(w, d) == Some(o)) || (d == o && Real(w, d) == Some(s))
    ensures var n := ParsePath(w, m, cwd, p, ReadOp, p, cached);
      && n.srcDeps == Add(m.srcDeps, rest) && n.objDeps == Add(m.objDeps, ObjectEntry(w, machine, orest))
      && n.seen == m.seen + {s, o, p}
  {
    ReadLists(w, m, cwd, p, d, cached);
    SourceName(w, s, top, rest);
    ObjectName(w, o, root, machine, orest);
  }

  /** A link record lists what reading its source would, and nothing for its target. */
  lemma LinkListsSource(w: World, s: Loop, r: Record, cached: bool)
    requires r.Link? && !(cached && r.path in s.m.seen)
    ensures var n := FileOp(w, s, r, cached).m;
      var read := ParsePath(w, s.m, s.cwd, Strip(r.path, '\''), ReadOp, r.path, cached);
      n.srcDeps == read.srcDeps && n.objDeps == read.objDeps && n.seen == read.seen
  {
    var m1 := ParsePath(w, s.m, s.cwd, Strip(r.path, '\''), ReadOp, r.path, cached);
    WriteEffect(w, m1, s.cwd, Strip(r.target, '\''), r.path, cached);
  }

  /** A record is skipped on its raw word, quotes and all, and on nothing else. */
  lemma SkippedExactly(w: World, s: Loop, r: Record)
    requires r.IsFileOp()
    ensures r.path in s.m.seen ==> FileOp(w, s, r, true) == s
    ensures r.Exec? && r.path !in s.m.seen ==> FileOp(w, s, r, true).m.pids == s.m.pids[r.pid := r.path]
    ensures r.Read? && r.path !in s.m.seen && r.path != "." ==>
      FileOp(w, s, r, true).m == ParsePath(w, s.m, s.cwd, r.path, ReadOp, r.path, true)
  {
    FileOpFrame(w, s, r, true);
  }

  /** The quotes around its names go. */
  lemma Unquotes(p: string)
    requires '\'' !in p
    ensures Strip("'" + p + "'", '\'') == p
  {
    var s := "'" + p + "'";
    assert s[1..] == p + "'" && (p + "'")[..|p|] == p;
    assert Strip(s, '\'') == Strip(p + "'", '\'');
    if p != "" {
      assert (p + "'")[0] == p[0] != '\'' && p[|p| - 1] != '\'';
      assert Strip(p + "'", '\'') == Strip(p, '\'') == p;
    }
  }

  /** And one right under an object root lists nothing. */
  lemma BareListsNothing(w: World, m: Meta, cwd: string, p: string, d: string, root: string, x: string, cached: bool)
    requires ReadIn(w, m, cwd, p, d) && (cached ==> d !in m.seen) && Real(w, d) == None && SrcName(w, d) == None
    requires RootOf(d, w.objroots, root) && d == root + x && Once(root, d) && '/' !in x && w.machine != "none"
    ensures var n := ParsePath(w, m, cwd, p, ReadOp, p, cached); n.srcDeps == m.srcDeps && n.objDeps == m.objDeps
  {
    ReadLists(w, m, cwd, p, d, cached);
    BareName(w, d, root, x);
  }

  lemma BareName(w: World, d: string, root: string, x: string)
    requires RootOf(d, w.objroots, root) && d == root + x && Once(root, d) && '/' !in x && w.machine != "none"
    ensures InObjects(w, d) && ObjName(w, d) == None
  {
    RemoveRoot(root, x);
    NoMachine(x);
  }

  lemma NoMachine(x: string)
    requires '/' !in x
    ensures MachineAndRest(x) == None
  {
    var mr := MachineAndRest(x);
    if mr.Some? {
      MachineAndRestExactly(x, mr.value.0, mr.value.1);
      SlashBetween(mr.value.0, mr.value.1);
    }
  }

  lemma SlashBetween(a: string, b: string)
    ensures '/' in a + "/" + b
  {
    assert (a + "/" + b)[|a|] == '/';
  }

  // ---- examples ---------------------------------------------------------------------------------

  /** A file system in which everything with a dot in its last name is a file, in a directory without one; source root
      /s/, object root /o/. */
  function Tree(machine: string, hostTarget: Option<string>): World {
    World(p => '.' !in Parent(p), p => '.' !in p, p => p, _ => false, ["/s/"], ["/o/"], [], machine, hostTarget, None)
  }

  lemma TreeLaws(machine: string, hostTarget: Option<string>)
    ensures Lawful(Tree(machine, hostTarget)) && Roots(Tree(machine, hostTarget).srctops)
  {
    var w := Tree(machine, hostTarget);
    forall p ensures PathLaws(w, p) {
      var slashes := SplitPathExactly(p);
      assert forall c :: c in Parent(p) ==> c in p;
      if Canonical(p) && p != "/" { CanonicalSplit(p); }
    }
    assert EndsWith("/s/", "/");
  }

  /** A parser at work in the root of the tree. */
  predicate InRoot(m: Meta) { m.lastDir == "/" && m.cwd == "/" && m.seen == {} && m.srcDeps == [] && m.objDeps == [] }

  /** The directory d of the tree, and the file x.a in it. */
  lemma TreeRead(machine: string, hostTarget: Option<string>, m: Meta, d: string)
    requires InRoot(m) && Canonical(d) && d != "/" && '.' !in d
    ensures ReadIn(Tree(machine, hostTarget), m, "/", d + "/" + "x.a", d)
    ensures Real(Tree(machine, hostTarget), d) == None
  {
    var w, x := Tree(machine, hostTarget), "x.a";
    TreeLaws(machine, hostTarget);
    PathBelow(d, x);
    var p := d + "/" + x;
    assert p[|p| - 2] == '.';
    assert !EndsWith(p, ".dirdep") by { assert p[|p| - 1] == 'a' && ".dirdep"[6] == 'p'; }
  }

  /** A name that holds no dot and no letter of the roots. */
  predicate Plainly(x: string) { Proper(x) && '.' !in x && 'o' !in x && 's' !in x }

  lemma TreeDir(a: string, b: string, c: string)
    requires Proper(a) && Proper(b) && Proper(c)
    ensures Canonical("/" + a) && Canonical("/" + a + "/" + b) && Canonical("/" + a + "/" + b + "/" + c)
  {
    TopPath(a);
    PathBelow("/" + a, b);
    PathBelow("/" + a + "/" + b, c);
  }

  /** A root of a letter of its own occurs once. */
  lemma OnceInFront(root: string, rest: string)
    requires |root| == 3 && root[1] !in rest && root[0] != root[1] && root[2] != root[1]
    ensures Once(root, root + rest)
  {
    var d := root + rest;
    forall k | OccursAt(d, root, k) ensures k == 0 {
      assert d[k..][1] == d[k + 1] == root[1];
      assert forall i :: 3 <= i < |d| ==> d[i] == rest[i - 3];
    }
  }

  lemma TreeObject(w: World, x: string, y: string)
    requires Plainly(x) && Plainly(y) && w.objroots == ["/o/"] && w.srctops == ["/s/"]
    ensures var d := "/o/" + x + "/" + y;
      Canonical(d) && d != "/" && '.' !in d && ObjectDir(w, d, "/o/", x, y) && SrcName(w, d) == None
  {
    var d := "/o/" + x + "/" + y;
    TreeDir("o", x, y);
    assert "/" + "o" + "/" + x + "/" + y == d;
    OnceInFront("/o/", x + "/" + y);
    assert d == "/o/" + (x + "/" + y);
    assert d[1] == 'o' && "/s/"[1] == 's';
    assert w.srctops[1..] == [];
    assert FindTop(d + "/", []) == None;
  }

  lemma TreeSource(w: World, x: string, y: string)
    requires Plainly(x) && Plainly(y) && w.srctops == ["/s/"]
    ensures var d := "/s/" + x + "/" + y;
      Canonical(d) && d != "/" && '.' !in d && SourceDir(w, d, "/s/", x + "/" + y)
  {
    var d := "/s/" + x + "/" + y;
    TreeDir("s", x, y);
    assert "/" + "s" + "/" + x + "/" + y == d;
    OnceInFront("/s/", x + "/" + y);
    assert d == "/s/" + (x + "/" + y);
    assert "/s/" <= d + "/";
  }

  /** What directory y of machine x in the object tree is listed as when the parser builds for a machine: with the name
      behind it, without it for that machine itself and for the host's own, and below it where there are no machines. */
  lemma TreeListsObjects(m: Meta, x: string, y: string, machine: string, hostTarget: Option<string>)
    requires InRoot(m) && Plainly(x) && Plainly(y)
    ensures var w, p := Tree(machine, hostTarget), "/o/" + x + "/" + y + "/" + "x.a";
      ParsePath(w, m, "/", p, ReadOp, p, true).objDeps ==
        if machine == "none" then [x + "/" + y]
        else if machine == x || (machine == "host" && hostTarget == Some(x)) then [y]
        else [y + "." + x]
  {
    var w, d := Tree(machine, hostTarget), "/o/" + x + "/" + y;
    TreeObject(w, x, y);
    TreeRead(machine, hostTarget, m, d);
    ObjectListed(w, m, "/", d + "/" + "x.a", d, "/o/", x, y, true);
  }

  /** And in the source tree. */
  lemma TreeListsSources(m: Meta, x: string, y: string, machine: string)
    requires InRoot(m) && Plainly(x) && Plainly(y)
    ensures var w, p := Tree(machine, None), "/s/" + x + "/" + y + "/" + "x.a";
      ParsePath(w, m, "/", p, ReadOp, p, true).srcDeps == [x + "/" + y]
  {
    var w, d := Tree(machine, None), "/s/" + x + "/" + y;
    TreeSource(w, x, y);
    TreeRead(machine, None, m, d);
    SourceListed(w, m, "/", d + "/" + "x.a", d, "/s/", x + "/" + y, true);
  }
}
