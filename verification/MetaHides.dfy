/** Traces on which the `seen` cache of meta2deps.py does hide a dependency, one family after another: each is
    shut out by one of the conditions the claim of MetaTransparent makes. */
module MetaHides {
  import opened Wrappers
  import opened PyStrings
  import opened CleanPath
  import opened MetaSpec
  import opened MetaProcess
  import opened SeenCache
  import opened MetaCache

  /** A MetaFile before it has read anything, run in directory start. */
  function Fresh(start: string): Meta { Meta({}, [], [], map[], start, start) }

  predicate SameDeps(w: World, start: string, t: seq<Record>) {
    var c, u := Run(w, Fresh(start), t, true).m, Run(w, Fresh(start), t, false).m;
    c.srcDeps == u.srcDeps && c.objDeps == u.objDeps
  }

  /** The rules, where no raw token is looked up. */
  function Reading(w: World, home: string): Rules { RulesOf(w, home, _ => "") }

  // ---- steps of one process -----------------------------------------------------------------------

  /** The parser is at work on process 1, in a world of directories. */
  predicate Ready(w: World, home: string, s: Loop) {
    && !s.skip && !s.failed && s.lastPid == 1 && s.m.cwd == home && HomesOk(w, s.m, s.cwd)
    && w.isDir(s.cwd)
  }

  lemma ReadOfProcess(w: World, s: Loop, x: string, cached: bool)
    requires !s.skip && !s.failed && s.lastPid == 1 && x != "."
    ensures Step(w, s, Read(1, x), cached) ==
      if cached && x in s.m.seen then s else s.(m := ParsePath(w, s.m, s.cwd, x, ReadOp, x, cached))
  {}

  /** Reading a file by a plain name. */
  lemma NameStep(w: World, home: string, s: Loop, x: string, cached: bool)
    requires Setting(w, home) && Ready(w, home, s) && Plain(s.cwd, x, s.m.lastDir) && Counted(w, s.cwd, x)
    ensures var n, p := Step(w, s, Read(1, x), cached), Spelled(s.cwd, x);
      && n == s.(m := n.m) && Ready(w, home, n) && n.m.lastDir == s.m.lastDir
      && ListsOf(n.m) == if cached && x in s.m.seen then ListsOf(s.m)
                         else Noted(Reading(w, home), ListsOf(s.m), p, x, cached)
  {
    if !("/" <= x) { NameSpelt(s.cwd, x); }
    ParentIsDir(w, Spelled(s.cwd, x));
    ReadEffect(w, s.m, _ => "", s.cwd, x, ReadOp, x, cached);
    ReadOfProcess(w, s, x, cached);
  }

  lemma ChdirGoes(w: World, cwd: string, d: string)
    requires PathLaws(w, d) && Canonical(d) && d != "/" && w.isDir(d)
    ensures ChdirTo(w, cwd, d) == d
  {
    CanonicalResolves(w, d, cwd, None);
    CanonicalSplit(d);
  }

  lemma ChdirStep(w: World, home: string, s: Loop, d: string, cached: bool)
    requires Setting(w, home) && Ready(w, home, s) && Canonical(d) && d != "/" && w.isDir(d)
    ensures var n := Step(w, s, Chdir(1, d), cached);
      Ready(w, home, n) && n.cwd == d && n.m.lastDir == d && ListsOf(n.m) == ListsOf(s.m)
  {
    assert PathLaws(w, d);
    ChdirGoes(w, s.cwd, d);
  }

  /** Reading a directory moves last_dir there, unless the cache has its parent. */
  lemma DirStep(w: World, home: string, s: Loop, e: string, cached: bool)
    requires Setting(w, home) && Ready(w, home, s) && Canonical(e) && Parent(e) != "/" && w.isDir(e)
    requires !EndsWith(e, ".dirdep") && !Excluded(e, w.excludes)
    ensures Step(w, s, Read(1, e), cached) ==
      if (cached && (e in s.m.seen || Parent(e) in s.m.seen)) || Home(w, s.m, s.cwd, e) then s
      else s.(m := s.m.(lastDir := e))
  {
    assert PathLaws(w, e);
    RootParts();
    CanonicalSplit(e);
    ParentIsDir(w, e);
    CanonicalResolves(w, e, s.cwd, Some(s.m.lastDir));
    CanonicalResolves(w, Parent(e), s.cwd, Some(s.m.lastDir));
    ParseAt(w, s.m, s.cwd, e, e, ReadOp, e, cached, Real(w, Parent(e)));
    ReadOfProcess(w, s, e, cached);
  }

  // ---- traces -------------------------------------------------------------------------------------

  function Opening(home: string): seq<Record> { [Cwd(home), Version(4)] }

  /** The parser after the opening, switched to process 1. */
  function Opened(w: World, home: string, start: string, cached: bool): Loop {
    Switch(Run(w, Fresh(start), Opening(home), cached), 1)
  }

  lemma OpeningRun(w: World, home: string, start: string, cached: bool)
    requires Setting(w, home)
    ensures var s := Opened(w, home, start, cached);
      && Ready(w, home, s) && s.cwd == home && s.m.lastDir == home && s.m.srcDeps == [] && s.m.objDeps == []
      && (forall token :: token in s.m.seen ==> Ignored(w, home, token) && w.isDir(token) && "/" <= token)
    ensures !Run(w, Fresh(start), Opening(home), cached).skip && !Run(w, Fresh(start), Opening(home), cached).failed
  {
    assert Opening(home)[..1] == [Cwd(home)];
    assert [Cwd(home)][..0] == [];
    assert Run(w, Fresh(start), [], cached) == Start(w, Fresh(start));
    assert Run(w, Fresh(start), [Cwd(home)], cached) == Step(w, Start(w, Fresh(start)), Cwd(home), cached);
  }

  /** The records rs of process 1 after the opening. */
  function Steps(w: World, s: Loop, rs: seq<Record>, cached: bool): Loop {
    if rs == [] then s else Step(w, Steps(w, s, rs[..|rs| - 1], cached), rs[|rs| - 1], cached)
  }

  lemma FirstStep(w: World, s: Loop, r: Record, cached: bool)
    requires !s.skip && !s.failed && (r.Exec? || r.Read? || r.Chdir?) && r.pid == 1
    ensures Step(w, s, r, cached) == Step(w, Switch(s, 1), r, cached)
  {}

  lemma {:induction false} RunOpened(w: World, home: string, start: string, rs: seq<Record>, cached: bool)
    requires Setting(w, home) && rs != []
    requires (rs[0].Exec? || rs[0].Read? || rs[0].Chdir?) && rs[0].pid == 1
    ensures Run(w, Fresh(start), Opening(home) + rs, cached) == Steps(w, Opened(w, home, start, cached), rs, cached)
    decreases |rs|
  {
    var n := |rs| - 1;
    var t := Opening(home) + rs;
    assert t[..|t| - 1] == Opening(home) + rs[..n] && t[|t| - 1] == rs[n];
    if n == 0 {
      OpeningRun(w, home, start, cached);
      assert rs[..0] == [] && Opening(home) + [] == Opening(home);
      FirstStep(w, Run(w, Fresh(start), Opening(home), cached), rs[0], cached);
    } else {
      RunOpened(w, home, start, rs[..n], cached);
    }
  }

  lemma TwoSteps(w: World, s: Loop, a: Record, b: Record, cached: bool)
    ensures Steps(w, s, [a, b], cached) == Step(w, Step(w, s, a, cached), b, cached)
  {
    assert [a, b][..1] == [a] && [a][..0] == [];
    assert Steps(w, s, [a], cached) == Step(w, s, a, cached);
  }

  lemma ThreeSteps(w: World, s: Loop, a: Record, b: Record, c: Record, cached: bool)
    ensures Steps(w, s, [a, b, c], cached) == Step(w, Step(w, Step(w, s, a, cached), b, cached), c, cached)
  {
    assert [a, b, c][..2] == [a, b];
    TwoSteps(w, s, a, b, cached);
  }

  // ---- a link that hides the directory behind it --------------------------------------------------

  /** A file of directory d is listed under d, and marks the directory d links to. */
  lemma FirstNote(w: World, home: string, l: Lists, p: string, token: string, cached: bool)
    requires Hides(w, home, Parent(p)) && l.src == [] && Parent(p) !in l.seen
    ensures var n := Noted(Reading(w, home), l, p, token, cached);
      && n.src == [SrcName(w, Parent(p)).value] && n.seen == l.seen + Marks(w, Parent(p)) + {token}
      && Real(w, Parent(p)).value in n.seen
  {
    assert Contribution(w, Parent(p)).0 == SrcName(w, Parent(p));
  }

  lemma SecondNote(w: World, home: string, l: Lists, d: string, q: string, cached: bool)
    requires Hides(w, home, d) && Some(Parent(q)) == Real(w, d) && Real(w, Parent(q)) == None
    requires l.src == [SrcName(w, d).value] && Parent(q) in l.seen
    ensures Noted(Reading(w, home), l, q, q, cached).src
         == [SrcName(w, d).value] + if cached then [] else [SrcName(w, Parent(q)).value]
  {
    assert Contribution(w, Parent(q)).0 == SrcName(w, Parent(q));
  }

  /** A file read by name x, and then one of the directory behind the link it lies in. */
  predicate LinkThenReal(w: World, home: string, d: string, x: string, q: string) {
    && Canonical(Spelled(d, x)) && d != "" && Counted(w, d, x) && Readable(w, q)
    && Hides(w, home, Parent(Spelled(d, x))) && Some(Parent(q)) == Real(w, Parent(Spelled(d, x)))
  }

  lemma LinkThenRealReads(w: World, home: string, s: Loop, x: string, q: string, cached: bool)
    requires Setting(w, home) && Ready(w, home, s) && s.m.lastDir == s.cwd && LinkThenReal(w, home, s.cwd, x, q)
    requires s.m.srcDeps == [] && forall token :: token in s.m.seen ==> Ignored(w, home, token) && w.isDir(token)
    requires x !in s.m.seen
    ensures |Step(w, Step(w, s, Read(1, x), cached), Read(1, q), cached).m.srcDeps| == if cached then 1 else 2
  {
    var p := Spelled(s.cwd, x);
    var d := Parent(p);
    NameStep(w, home, s, x, cached);
    FirstNote(w, home, ListsOf(s.m), p, x, cached);
    var s1 := Step(w, s, Read(1, x), cached);
    ParentIsDir(w, p);
    assert PathLaws(w, d);
    NameStep(w, home, s1, q, cached);
    SecondNote(w, home, ListsOf(s1.m), d, q, cached);
  }

  function Exhibit(home: string, p: string, q: string): seq<Record> { Opening(home) + [Read(1, p), Read(1, q)] }

  lemma ReadableFits(w: World, kind: Kind, d: string, p: string)
    requires Readable(w, p)
    ensures FileRecord(w, kind, d, Read(1, p)) && "/" <= p
  {}

  lemma OpeningFits(w: World, home: string, start: string, kind: Kind, t: seq<Record>, i: nat)
    requires i < 2 <= |t| && t[..2] == Opening(home)
    ensures FitsAt(w, home, start, kind, t, i) && !Uses(t, i)
  {
    assert t[0] == t[..2][0] == Cwd(home) && t[1] == t[..2][1];
    if i == 1 {
      assert t[..1] == [Cwd(home)] && [Cwd(home)][..0] == [];
      assert CwdOf(Chdirs(w), start, [Cwd(home)], 0) == home;
    }
  }

  lemma ExhibitFits(w: World, home: string, start: string, kind: Kind, p: string, q: string)
    requires Readable(w, p) && Readable(w, q)
    ensures AllFit(w, home, start, kind, Exhibit(home, p, q)) && OneDirEach(w, start, Exhibit(home, p, q))
  {
    var t := Exhibit(home, p, q);
    assert t[..2] == Opening(home);
    forall i: nat | i < |t| ensures FitsAt(w, home, start, kind, t, i) && !Uses(t, i) {
      if i < 2 {
        OpeningFits(w, home, start, kind, t, i);
      } else {
        assert t[..i][1].Version?;
        ReadableFits(w, kind, CwdOf(Chdirs(w), start, t[..i], 1), t[i].path);
      }
    }
  }

  /** Reading a file through the link and then one of the directory behind it, both by their absolute names: the
      cached parser never lists the directory. */
  lemma HiddenPairShows(w: World, home: string, start: string, kind: Kind, p: string, q: string)
    requires Setting(w, home) && HiddenPair(w, home, p, q)
    ensures var t := Exhibit(home, p, q);
      AllFit(w, home, start, kind, t) && OneDirEach(w, start, t) && !SameDeps(w, start, t)
  {
    ExhibitFits(w, home, start, kind, p, q);
    forall cached: bool
      ensures |Run(w, Fresh(start), Exhibit(home, p, q), cached).m.srcDeps| == if cached then 1 else 2
    {
      var s := Opened(w, home, start, cached);
      OpeningRun(w, home, start, cached);
      RunOpened(w, home, start, [Read(1, p), Read(1, q)], cached);
      TwoSteps(w, s, Read(1, p), Read(1, q), cached);
      LinkThenRealReads(w, home, s, p, q, cached);
    }
  }

  // ---- a directory that is executed ---------------------------------------------------------------

  /** Directory p lies behind a hiding link, and file q in the directory that is hidden. */
  predicate RunThenReal(w: World, home: string, p: string, q: string) {
    && Canonical(p) && p != "/" && w.isDir(p) && !EndsWith(p, ".dirdep") && !Excluded(p, w.excludes)
    && Hides(w, home, Parent(p)) && Readable(w, q) && Some(Parent(q)) == Real(w, Parent(p))
  }

  lemma RunParts(w: World, home: string, p: string, q: string)
    requires Setting(w, home) && RunThenReal(w, home, p, q)
    ensures w.present(p) && Parent(p) != "" && Canonical(Parent(p)) && w.isDir(Parent(p)) && w.present(Parent(p))
    ensures Real(w, Parent(q)) == None
  {
    assert PathLaws(w, p);
    CanonicalSplit(p);
    assert PathLaws(w, Parent(p));
  }

  lemma ExecParse(w: World, m: Meta, cwd: string, p: string, cached: bool)
    requires Canonical(p) && w.present(p) && !EndsWith(p, ".dirdep") && !Excluded(p, w.excludes)
    requires Parent(p) != "" && Canonical(Parent(p)) && w.present(Parent(p))
    ensures ParsePath(w, m, cwd, p, ExecOp, p, cached) ==
      if cached && Parent(p) in m.seen then m else Classify(w, m, Parent(p), Real(w, Parent(p)), Base(p), p)
  {
    CanonicalResolves(w, p, cwd, Some(m.lastDir));
    CanonicalResolves(w, Parent(p), cwd, Some(m.lastDir));
  }

  lemma ExecNote(w: World, home: string, m: Meta, cwd: string, p: string, q: string, cached: bool)
    requires Setting(w, home) && RunThenReal(w, home, p, q) && m.cwd == home
    ensures var n := ParsePath(w, m, cwd, p, ExecOp, p, cached);
      && ListsOf(n) == Noted(Reading(w, home), ListsOf(m), p, p, cached)
      && n == m.(seen := n.seen, srcDeps := n.srcDeps, objDeps := n.objDeps)
  {
    RunParts(w, home, p, q);
    ExecParse(w, m, cwd, p, cached);
    FileEffect(w, m, _ => "", p, ParsePath(w, m, cwd, p, ExecOp, p, cached), p, cached);
  }

  lemma ExecOfProcess(w: World, s: Loop, p: string, cached: bool)
    requires !s.skip && !s.failed && s.lastPid == 1 && p !in s.m.seen
    ensures var m := s.m.(pids := s.m.pids[1 := p]);
      Step(w, s, Exec(1, p), cached) == s.(m := ParsePath(w, m, s.cwd, p, ExecOp, p, cached))
  {}

  lemma ExecStep(w: World, home: string, s: Loop, p: string, q: string, cached: bool)
    requires Setting(w, home) && Ready(w, home, s) && RunThenReal(w, home, p, q) && p !in s.m.seen
    ensures var n := Step(w, s, Exec(1, p), cached);
      && n == s.(m := n.m) && Ready(w, home, n) && n.m.lastDir == s.m.lastDir
      && ListsOf(n.m) == Noted(Reading(w, home), ListsOf(s.m), p, p, cached)
  {
    var m := s.m.(pids := s.m.pids[1 := p]);
    ExecNote(w, home, m, s.cwd, p, q, cached);
    ExecOfProcess(w, s, p, cached);
  }

  lemma RunThenRealReads(w: World, home: string, s: Loop, p: string, q: string, cached: bool)
    requires Setting(w, home) && Ready(w, home, s) && RunThenReal(w, home, p, q) && s.m.srcDeps == []
    requires forall token :: token in s.m.seen ==> Ignored(w, home, token)
    requires p !in s.m.seen
    ensures |Step(w, Step(w, s, Exec(1, p), cached), Read(1, q), cached).m.srcDeps| == if cached then 1 else 2
  {
    ExecStep(w, home, s, p, q, cached);
    RunParts(w, home, p, q);
    FirstNote(w, home, ListsOf(s.m), p, p, cached);
    var s1 := Step(w, s, Exec(1, p), cached);
    NameStep(w, home, s1, q, cached);
    SecondNote(w, home, ListsOf(s1.m), Parent(p), q, cached);
  }

  /** A directory that a trace says was executed counts as a file, so it marks what is behind its own link. */
  lemma RunDirectoryHides(w: World, home: string, start: string, p: string, q: string)
    requires Setting(w, home) && RunThenReal(w, home, p, q) && !Ignored(w, home, p)
    ensures !SameDeps(w, start, Opening(home) + [Exec(1, p), Read(1, q)])
  {
    forall cached: bool
      ensures |Run(w, Fresh(start), Opening(home) + [Exec(1, p), Read(1, q)], cached).m.srcDeps|
           == if cached then 1 else 2
    {
      var s := Opened(w, home, start, cached);
      OpeningRun(w, home, start, cached);
      RunOpened(w, home, start, [Exec(1, p), Read(1, q)], cached);
      TwoSteps(w, s, Exec(1, p), Read(1, q), cached);
      RunThenRealReads(w, home, s, p, q, cached);
    }
  }

  // ---- a directory by another spelling ------------------------------------------------------------

  /** p is an absolute name that parse_path leaves as it is, though its directory d has a canonical name of its own;
      q is a file of the same directory by that name. Doubled slashes make such names: abspath does not see them. */
  predicate Misspelt(w: World, home: string, p: string, q: string) {
    var d := Parent(p);
    && "/" <= p && w.present(p) && !w.isDir(d + "/" + Base(p)) && '/' !in Base(p) && !EndsWith(p, "/.")
    && !EndsWith(p, ".dirdep") && !Excluded(p, w.excludes)
    && "/" <= d && w.present(d) && !EndsWith(d, "/.") && !NeedsCleaning(d)
    && Hides(w, home, d) && Readable(w, q) && Some(Parent(q)) == Real(w, d)
  }

  lemma KeptAsIs(w: World, p: string, cwd: string, lastDir: string)
    requires "/" <= p && w.present(p) && !EndsWith(p, "/.")
    ensures Resolve(w, p, cwd, Some(lastDir)) == Some(p)
    ensures !NeedsCleaning(p) ==> AbsPath(w, p, cwd, Some(lastDir)) == Some(p)
  {}

  lemma MisspeltParse(w: World, home: string, m: Meta, cwd: string, p: string, q: string, cached: bool)
    requires HomesOk(w, m, cwd) && w.isDir(cwd) && Misspelt(w, home, p, q)
    ensures ParsePath(w, m, cwd, p, ReadOp, p, cached) ==
      if cached && Parent(p) in m.seen then m else Classify(w, m, Parent(p), Real(w, Parent(p)), Base(p), p)
  {
    KeptAsIs(w, p, cwd, m.lastDir);
    KeptAsIs(w, Parent(p), cwd, m.lastDir);
    ParseAt(w, m, cwd, p, p, ReadOp, p, cached, Real(w, Parent(p)));
  }

  lemma MisspeltNote(w: World, home: string, m: Meta, p: string, q: string, n: Meta, cached: bool)
    requires Setting(w, home) && Misspelt(w, home, p, q) && m.cwd == home
    requires
      n == if cached && Parent(p) in m.seen then m else Classify(w, m, Parent(p), Real(w, Parent(p)), Base(p), p)
    ensures ListsOf(n) == Noted(Reading(w, home), ListsOf(m), p, p, cached)
    ensures n == m.(seen := n.seen, srcDeps := n.srcDeps, objDeps := n.objDeps)
  {
    var d := Parent(p);
    ReadableParent(w, q);
    assert w.realPath(d) != "";
    ClassifyEffect(w, m, d, Base(p), p);
  }

  /** Such a directory gives what its spelling gives, and marks the directory it really is. */
  lemma MisspeltStep(w: World, home: string, s: Loop, p: string, q: string, cached: bool)
    requires Setting(w, home) && Ready(w, home, s) && Misspelt(w, home, p, q) && !(cached && p in s.m.seen)
    ensures var n := Step(w, s, Read(1, p), cached);
      && n == s.(m := n.m) && Ready(w, home, n) && n.m.lastDir == s.m.lastDir
      && ListsOf(n.m) == Noted(Reading(w, home), ListsOf(s.m), p, p, cached)
  {
    ReadOfProcess(w, s, p, cached);
    MisspeltParse(w, home, s.m, s.cwd, p, q, cached);
    MisspeltNote(w, home, s.m, p, q, ParsePath(w, s.m, s.cwd, p, ReadOp, p, cached), cached);
  }

  lemma ReadableStep(w: World, home: string, s: Loop, q: string, cached: bool)
    requires Setting(w, home) && Ready(w, home, s) && Readable(w, q)
    ensures ListsOf(Step(w, s, Read(1, q), cached).m) ==
      if cached && q in s.m.seen then ListsOf(s.m) else Noted(Reading(w, home), ListsOf(s.m), q, q, cached)
  {
    NameStep(w, home, s, q, cached);
  }

  lemma MisspeltReads(w: World, home: string, s: Loop, p: string, q: string, cached: bool)
    requires Setting(w, home) && Ready(w, home, s) && Misspelt(w, home, p, q) && Real(w, Parent(q)) == None
    requires s.m.srcDeps == [] && p !in s.m.seen && Parent(p) !in s.m.seen
    ensures |Step(w, Step(w, s, Read(1, p), cached), Read(1, q), cached).m.srcDeps| == if cached then 1 else 2
  {
    var d := Parent(p);
    var s1 := Step(w, s, Read(1, p), cached);
    MisspeltStep(w, home, s, p, q, cached);
    MisspeltLists(w, home, ListsOf(s.m), p, q, cached);
    ReadableStep(w, home, s1, q, cached);
  }

  lemma MisspeltLists(w: World, home: string, l: Lists, p: string, q: string, cached: bool)
    requires Misspelt(w, home, p, q) && Real(w, Parent(q)) == None && l.src == [] && Parent(p) !in l.seen
    ensures var n := Noted(Reading(w, home), l, p, p, cached);
      |n.src| == 1 && |Noted(Reading(w, home), n, q, q, cached).src| == if cached then 1 else 2
  {
    FirstNote(w, home, l, p, p, cached);
    SecondNote(w, home, Noted(Reading(w, home), l, p, p, cached), Parent(p), q, cached);
  }

  /** The same file name spelt in two ways: the first is listed under the directory's other name, the second not at
      all by the cached parser. */
  lemma SpellingHides(w: World, home: string, start: string, p: string, q: string)
    requires Setting(w, home) && Misspelt(w, home, p, q) && Real(w, Parent(q)) == None && !w.isDir(p)
    ensures !SameDeps(w, start, Exhibit(home, p, q))
  {
    forall cached: bool
      ensures |Run(w, Fresh(start), Exhibit(home, p, q), cached).m.srcDeps| == if cached then 1 else 2
    {
      var s := Opened(w, home, start, cached);
      OpeningRun(w, home, start, cached);
      RunOpened(w, home, start, [Read(1, p), Read(1, q)], cached);
      TwoSteps(w, s, Read(1, p), Read(1, q), cached);
      MisspeltReads(w, home, s, p, q, cached);
    }
  }

  // ---- an earlier home ----------------------------------------------------------------------------

  /** q is a file of directory d, which gives something and is home or curdir no longer. */
  predicate FormerHome(w: World, d: string, home: string, q: string) {
    && Readable(w, q) && Parent(q) == d && !Ignored(w, home, d)
    && (Contribution(w, d).0.Some? || Contribution(w, d).1.Some?)
  }

  function Listed(m: Meta): nat { |m.srcDeps| + |m.objDeps| }

  lemma NoteNew(w: World, home: string, l: Lists, q: string, cached: bool)
    requires FormerHome(w, Parent(q), home, q) && l.src == [] && l.obj == [] && (cached ==> Parent(q) in l.seen)
    ensures var n := Noted(Reading(w, home), l, q, q, cached); |n.src| + |n.obj| == 0 <==> cached
  {}

  /** From a parser that has seen directory d: the header of a trace in another home, and then the file. */
  lemma HomeRead(w: World, s: Loop, d: string, home: string, q: string, cached: bool)
    requires Setting(w, home) && FormerHome(w, d, home, q)
    requires s.skip && !s.failed && s.lastPid == 0 && s.pidCwd == map[] && s.pidLastDir == map[]
    requires d in s.m.seen && s.m.srcDeps == [] && s.m.objDeps == []
    ensures var n := Step(w, Step(w, Step(w, s, Cwd(home), cached), Version(4), cached), Read(1, q), cached);
      Listed(n.m) == 0 <==> cached
  {
    var s1 := Step(w, Step(w, s, Cwd(home), cached), Version(4), cached);
    FirstStep(w, s1, Read(1, q), cached);
    var s2 := Switch(s1, 1);
    assert Ready(w, home, s2) && ListsOf(s2.m) == Lists(s.m.seen + {home}, [], []);
    NameStep(w, home, s2, q, cached);
    NoteNew(w, home, ListsOf(s2.m), q, cached);
  }

  function TwoHomes(d: string, home: string, q: string): seq<Record> { [Cwd(d), Cwd(home), Version(4), Read(1, q)] }

  /** Two CWD records: the first directory stays in `seen` when its files have come to count. */
  lemma EarlierHomeHides(w: World, start: string, d: string, home: string, q: string)
    requires Setting(w, home) && FormerHome(w, d, home, q)
    ensures !SameDeps(w, start, TwoHomes(d, home, q))
  {
    var t := TwoHomes(d, home, q);
    forall cached: bool ensures Listed(Run(w, Fresh(start), t, cached).m) == 0 <==> cached {
      var s := Step(w, Start(w, Fresh(start)), Cwd(d), cached);
      RunFour(w, Fresh(start), t, cached);
      HomeRead(w, s, d, home, q, cached);
    }
  }

  lemma RunFour(w: World, m: Meta, t: seq<Record>, cached: bool)
    requires |t| == 4
    ensures Run(w, m, t, cached) ==
      Step(w, Step(w, Step(w, Step(w, Start(w, m), t[0], cached), t[1], cached), t[2], cached), t[3], cached)
  {
    RunThree(w, m, t[..3], cached);
  }

  lemma RunThree(w: World, m: Meta, t: seq<Record>, cached: bool)
    requires |t| == 3
    ensures Run(w, m, t, cached) == Step(w, Step(w, Step(w, Start(w, m), t[0], cached), t[1], cached), t[2], cached)
  {
    assert t[..2][..1] == t[..1] && t[..1][..0] == [];
    assert Run(w, m, t[..1], cached) == Step(w, Start(w, m), t[0], cached);
    assert Run(w, m, t[..2], cached) == Step(w, Run(w, m, t[..1], cached), t[1], cached);
  }

  // ---- several meta files -------------------------------------------------------------------------

  /** The next MetaFile of the same run: `seen` and the lists are class attributes and stay. */
  function Next(m: Meta, start: string): Meta { m.(pids := map[], cwd := start, lastDir := start) }

  function RunAll(w: World, start: string, m: Meta, files: seq<seq<Record>>, cached: bool): Meta
    decreases |files|
  {
    if files == [] then m
    else
      var n := |files| - 1;
      Run(w, Next(RunAll(w, start, m, files[..n], cached), start), files[n], cached).m
  }

  predicate SameDepsAll(w: World, start: string, files: seq<seq<Record>>) {
    var c, u := RunAll(w, start, Fresh(start), files, true), RunAll(w, start, Fresh(start), files, false);
    c.srcDeps == u.srcDeps && c.objDeps == u.objDeps
  }

  lemma OneFile(w: World, start: string, t: seq<Record>, cached: bool)
    ensures RunAll(w, start, Fresh(start), [t], cached) == Run(w, Fresh(start), t, cached).m
  {
    assert [t][..0] == [];
    assert RunAll(w, start, Fresh(start), [], cached) == Fresh(start) == Next(Fresh(start), start);
  }

  /** A complete meta file of directory d, without records, and one of another directory. */
  function TwoFiles(d: string, home: string, q: string): seq<seq<Record>> {
    [[Cwd(d), Version(4), Comment(true)], [Cwd(home), Version(4), Read(1, q)]]
  }

  lemma FirstFile(w: World, start: string, d: string, cached: bool)
    ensures Run(w, Fresh(start), [Cwd(d), Version(4), Comment(true)], cached).m ==
      Start(w, Fresh(start)).m.(seen := Start(w, Fresh(start)).m.seen + {d}, cwd := d, lastDir := d)
  {
    RunThree(w, Fresh(start), [Cwd(d), Version(4), Comment(true)], cached);
  }

  /** Two meta files of different directories that share one cache fail in the same way, unless it is reset. */
  lemma EarlierFileHides(w: World, start: string, d: string, home: string, q: string)
    requires Setting(w, home) && FormerHome(w, d, home, q)
    ensures !SameDepsAll(w, start, TwoFiles(d, home, q))
  {
    var files := TwoFiles(d, home, q);
    forall cached: bool ensures Listed(RunAll(w, start, Fresh(start), files, cached)) == 0 <==> cached {
      assert files[..1] == [files[0]];
      OneFile(w, start, files[0], cached);
      FirstFile(w, start, d, cached);
      var m := Next(RunAll(w, start, Fresh(start), files[..1], cached), start);
      RunThree(w, m, files[1], cached);
      HomeRead(w, Start(w, m), d, home, q, cached);
    }
  }

  // ---- a relative name for a file that is excluded by its path ------------------------------------

  function Inside(home: string, d: string, x: string, q: string): seq<Record> {
    Opening(home) + [Chdir(1, d), Read(1, x), Read(1, q)]
  }

  /** The same happens when the first file is read by a relative name, even if its path is excluded: the exclude
      list is matched against the name as it was used. */
  lemma ExcludedNameHides(w: World, home: string, start: string, d: string, x: string, q: string)
    requires Setting(w, home) && Canonical(d) && d != "/" && w.isDir(d)
    requires !("/" <= x) && LinkThenReal(w, home, d, x, q)
    ensures !SameDeps(w, start, Inside(home, d, x, q))
  {
    forall cached: bool
      ensures |Run(w, Fresh(start), Inside(home, d, x, q), cached).m.srcDeps| == if cached then 1 else 2
    {
      var s := Opened(w, home, start, cached);
      OpeningRun(w, home, start, cached);
      RunOpened(w, home, start, [Chdir(1, d), Read(1, x), Read(1, q)], cached);
      ThreeSteps(w, s, Chdir(1, d), Read(1, x), Read(1, q), cached);
      ChdirStep(w, home, s, d, cached);
      LinkThenRealReads(w, home, Step(w, s, Chdir(1, d), cached), x, q, cached);
    }
  }

  // ---- a relative name for a file that is not there -----------------------------------------------

  /** Name x, used in directory d, names no file, but a directory with a hiding link; q is a file behind the link. */
  predicate MissingThenReal(w: World, home: string, d: string, x: string, q: string) {
    var p := Spelled(d, x);
    && Canonical(d) && d != "/" && w.isDir(d) && "./" <= x && !EndsWith(x, ".dirdep") && !Excluded(x, w.excludes)
    && Canonical(p) && !w.present(p) && w.isDir(Parent(p))
    && Hides(w, home, Parent(p)) && Readable(w, q) && Some(Parent(q)) == Real(w, Parent(p))
  }

  lemma MissingParts(w: World, home: string, d: string, x: string, q: string)
    requires Setting(w, home) && MissingThenReal(w, home, d, x, q)
    ensures var p := Spelled(d, x);
      && p != "/" && Parent(p) != "" && Canonical(Parent(p)) && w.present(Parent(p))
      && !w.isDir(Parent(p) + "/" + Base(p)) && Parent(p) + "/" + Base(p) != d && Real(w, Parent(q)) == None
  {
    var p := Spelled(d, x);
    assert PathLaws(w, p) && PathLaws(w, "/") && PathLaws(w, Parent(p)) && PathLaws(w, d);
    RootParts();
    Rebuilt(w, p);
    CanonicalSplit(p);
  }

  lemma MissingParse(w: World, home: string, m: Meta, d: string, x: string, q: string, cached: bool)
    requires Setting(w, home) && MissingThenReal(w, home, d, x, q) && HomesOk(w, m, d) && m.lastDir == d
    ensures var p := Spelled(d, x);
      ParsePath(w, m, d, x, ReadOp, x, cached) ==
        if cached && Parent(p) in m.seen then m else Classify(w, m, Parent(p), Real(w, Parent(p)), Base(p), x)
  {
    var p := Spelled(d, x);
    MissingParts(w, home, d, x, q);
    NameResolves(w, x, d, m.lastDir);
    CanonicalResolves(w, Parent(p), d, Some(m.lastDir));
    ParseAt(w, m, d, x, p, ReadOp, x, cached, Real(w, Parent(p)));
  }

  lemma MissingStep(w: World, home: string, s: Loop, d: string, x: string, q: string, cached: bool)
    requires Setting(w, home) && Ready(w, home, s) && MissingThenReal(w, home, d, x, q)
    requires s.cwd == d && s.m.lastDir == d && x !in s.m.seen
    ensures var n := Step(w, s, Read(1, x), cached);
      && n == s.(m := n.m) && Ready(w, home, n) && n.m.lastDir == s.m.lastDir
      && ListsOf(n.m) == Noted(Reading(w, home), ListsOf(s.m), Spelled(d, x), x, cached)
  {
    ReadOfProcess(w, s, x, cached);
    MissingParts(w, home, d, x, q);
    MissingParse(w, home, s.m, d, x, q, cached);
    FileEffect(w, s.m, _ => "", Spelled(d, x), ParsePath(w, s.m, d, x, ReadOp, x, cached), x, cached);
  }

  lemma MissingReads(w: World, home: string, s: Loop, d: string, x: string, q: string, cached: bool)
    requires Setting(w, home) && Ready(w, home, s) && MissingThenReal(w, home, d, x, q)
    requires s.cwd == d && s.m.lastDir == d && s.m.srcDeps == []
    requires forall token :: token in s.m.seen ==> Ignored(w, home, token) && "/" <= token
    ensures |Step(w, Step(w, s, Read(1, x), cached), Read(1, q), cached).m.srcDeps| == if cached then 1 else 2
  {
    MissingStep(w, home, s, d, x, q, cached);
    MissingParts(w, home, d, x, q);
    FirstNote(w, home, ListsOf(s.m), Spelled(d, x), x, cached);
    var s1 := Step(w, s, Read(1, x), cached);
    NameStep(w, home, s1, q, cached);
    SecondNote(w, home, ListsOf(s1.m), Parent(Spelled(d, x)), q, cached);
  }

  /** A name that starts with a dot and a slash is not looked up, so a file that is not there marks the directory
      behind the link it is not in. */
  lemma MissingNameHides(w: World, home: string, start: string, d: string, x: string, q: string)
    requires Setting(w, home) && MissingThenReal(w, home, d, x, q)
    ensures !SameDeps(w, start, Inside(home, d, x, q))
  {
    forall cached: bool
      ensures |Run(w, Fresh(start), Inside(home, d, x, q), cached).m.srcDeps| == if cached then 1 else 2
    {
      var s := Opened(w, home, start, cached);
      OpeningRun(w, home, start, cached);
      RunOpened(w, home, start, [Chdir(1, d), Read(1, x), Read(1, q)], cached);
      ThreeSteps(w, s, Chdir(1, d), Read(1, x), Read(1, q), cached);
      ChdirStep(w, home, s, d, cached);
      MissingReads(w, home, Step(w, s, Chdir(1, d), cached), d, x, q, cached);
    }
  }

  // ---- one name in two directories ----------------------------------------------------------------

  /** A file that name x names in directory d, and that gives a source entry. */
  predicate Gives(w: World, home: string, d: string, x: string) {
    && Canonical(d) && d != "/" && w.isDir(d) && !("/" <= x) && Canonical(d + "/" + x) && Counted(w, d, x)
    && !Ignored(w, home, Parent(d + "/" + x)) && Contribution(w, Parent(d + "/" + x)).0.Some?
  }

  function Entry(w: World, d: string, x: string): Option<string> { Contribution(w, Parent(d + "/" + x)).0 }

  lemma NoteGives(w: World, home: string, l: Lists, d: string, x: string)
    requires Gives(w, home, d, x)
    ensures Noted(Reading(w, home), l, d + "/" + x, x, false).src == AddOpt(l.src, Entry(w, d, x))
    ensures Parent(d + "/" + x) !in l.seen ==>
      var n := Noted(Reading(w, home), l, d + "/" + x, x, true);
      n.src == AddOpt(l.src, Entry(w, d, x)) && x in n.seen
  {}

  lemma ChdirRead(w: World, home: string, s: Loop, d: string, x: string, cached: bool)
    requires Setting(w, home) && Ready(w, home, s) && Gives(w, home, d, x)
    ensures var n := Step(w, Step(w, s, Chdir(1, d), cached), Read(1, x), cached);
      && Ready(w, home, n)
      && ListsOf(n.m) == if cached && x in s.m.seen then ListsOf(s.m)
                         else Noted(Reading(w, home), ListsOf(s.m), d + "/" + x, x, cached)
  {
    NoDots(d, x);
    ChdirStep(w, home, s, d, cached);
    NameStep(w, home, Step(w, s, Chdir(1, d), cached), x, cached);
  }

  function TwoDirs(home: string, a: string, b: string, x: string): seq<Record> {
    Opening(home) + [Chdir(1, a), Read(1, x), Chdir(1, b), Read(1, x)]
  }

  lemma TwoDirsReads(w: World, home: string, s: Loop, a: string, b: string, x: string, cached: bool)
    requires Setting(w, home) && Ready(w, home, s) && s.m.srcDeps == []
    requires Gives(w, home, a, x) && Gives(w, home, b, x) && Entry(w, a, x) != Entry(w, b, x)
    requires forall token :: token in s.m.seen ==> Ignored(w, home, token) && "/" <= token
    ensures var s1 := Step(w, Step(w, s, Chdir(1, a), cached), Read(1, x), cached);
      |Step(w, Step(w, s1, Chdir(1, b), cached), Read(1, x), cached).m.srcDeps| == if cached then 1 else 2
  {
    ChdirRead(w, home, s, a, x, cached);
    NoteGives(w, home, ListsOf(s.m), a, x);
    var s1 := Step(w, Step(w, s, Chdir(1, a), cached), Read(1, x), cached);
    ChdirRead(w, home, s1, b, x, cached);
    NoteGives(w, home, ListsOf(s1.m), b, x);
  }

  /** The cache remembers a relative name without its directory, so the same name used in another directory is
      taken for the earlier file. */
  lemma RelativeNameHides(w: World, home: string, start: string, a: string, b: string, x: string)
    requires Setting(w, home)
    requires Gives(w, home, a, x) && Gives(w, home, b, x) && Entry(w, a, x) != Entry(w, b, x)
    ensures !SameDeps(w, start, TwoDirs(home, a, b, x))
  {
    var rs := [Chdir(1, a), Read(1, x), Chdir(1, b), Read(1, x)];
    forall cached: bool
      ensures |Run(w, Fresh(start), TwoDirs(home, a, b, x), cached).m.srcDeps| == if cached then 1 else 2
    {
      var s := Opened(w, home, start, cached);
      OpeningRun(w, home, start, cached);
      RunOpened(w, home, start, rs, cached);
      assert rs[..3] == [Chdir(1, a), Read(1, x), Chdir(1, b)];
      ThreeSteps(w, s, Chdir(1, a), Read(1, x), Chdir(1, b), cached);
      TwoDirsReads(w, home, s, a, b, x, cached);
    }
  }

  // ---- a directory that is read -------------------------------------------------------------------

  /** File p and directory e lie in one source directory; y is a file of e, and nothing by that name is in the
      directory of the process. */
  predicate StrayDirectory(w: World, home: string, p: string, e: string, y: string) {
    && Readable(w, p) && Parent(p) == Parent(e) != "/" && !Ignored(w, home, Parent(p)) && SrcName(w, Parent(p)).Some?
    && Canonical(e) && w.isDir(e) && !EndsWith(e, ".dirdep") && !Excluded(e, w.excludes)
    && Gives(w, home, e, y) && Proper(y) && !w.present(home + "/" + y)
    && Contribution(w, Parent(p)).0 != Contribution(w, e).0
  }

  function ReadsDirectory(home: string, p: string, e: string, y: string): seq<Record> {
    Opening(home) + [Read(1, p), Read(1, e), Read(1, y)]
  }

  /** y is looked for under last_dir first. */
  lemma StrayRead(w: World, home: string, s: Loop, e: string, y: string, cached: bool)
    requires Setting(w, home) && Ready(w, home, s) && s.cwd == home && Gives(w, home, e, y) && Proper(y)
    requires !w.present(home + "/" + y) && e != home
    requires s.m.lastDir == home || (s.m.lastDir == e && !cached)
    ensures ListsOf(Step(w, s, Read(1, y), cached).m) ==
      if s.m.lastDir == home then ListsOf(s.m) else Noted(Reading(w, home), ListsOf(s.m), e + "/" + y, y, cached)
  {
    NoDots(e, y);
    ReadOfProcess(w, s, y, cached);
    if s.m.lastDir == e {
      var p := e + "/" + y;
      assert Resolve(w, y, home, Some(e)) == Some(p);
      ParentIsDir(w, p);
      CanonicalResolves(w, Parent(p), home, Some(e));
      ParseAt(w, s.m, home, y, p, ReadOp, y, cached, Real(w, Parent(p)));
      FileEffect(w, s.m, _ => "", p, ParsePath(w, s.m, home, y, ReadOp, y, cached), y, cached);
    }
  }

  lemma NestedParent(e: string, y: string)
    requires Canonical(e) && e != "/" && Proper(y)
    ensures Parent(e + "/" + y) == e
  {
    var q := CanonicalNames(e);
    SplitNested(q, y);
    assert "/" + Join(q, '/') == e;
  }

  lemma StrayFile(w: World, home: string, s: Loop, p: string, e: string, y: string, cached: bool)
    requires Setting(w, home) && Ready(w, home, s) && s.m.srcDeps == []
    requires forall token :: token in s.m.seen ==> Ignored(w, home, token)
    requires StrayDirectory(w, home, p, e, y)
    ensures var n := Step(w, s, Read(1, p), cached);
      && n == s.(m := n.m) && Ready(w, home, n) && n.m.lastDir == s.m.lastDir
      && Parent(p) in n.m.seen && (p !in s.m.seen ==> n.m.srcDeps == [SrcName(w, Parent(p)).value])
  {
    NameStep(w, home, s, p, cached);
  }

  lemma StrayEntry(w: World, home: string, l: Lists, p: string, e: string, y: string)
    requires StrayDirectory(w, home, p, e, y) && l.src == [SrcName(w, Parent(p)).value]
    ensures |Noted(Reading(w, home), l, e + "/" + y, y, false).src| == 2
  {
    NestedParent(e, y);
    assert Contribution(w, Parent(p)).0 == SrcName(w, Parent(p));
  }

  lemma StrayReads(w: World, home: string, s: Loop, p: string, e: string, y: string, cached: bool)
    requires Setting(w, home) && Ready(w, home, s) && s.cwd == home && s.m.lastDir == home && s.m.srcDeps == []
    requires forall token :: token in s.m.seen ==> Ignored(w, home, token) && w.isDir(token)
    requires StrayDirectory(w, home, p, e, y) && !Ignored(w, home, e)
    ensures var n := Step(w, Step(w, Step(w, s, Read(1, p), cached), Read(1, e), cached), Read(1, y), cached);
      |n.m.srcDeps| == if cached then 1 else 2
  {
    StrayFile(w, home, s, p, e, y, cached);
    var s1 := Step(w, s, Read(1, p), cached);
    DirStep(w, home, s1, e, cached);
    var s2 := Step(w, s1, Read(1, e), cached);
    assert s2 == if cached then s1 else s1.(m := s1.m.(lastDir := e));
    StrayRead(w, home, s2, e, y, cached);
    StrayEntry(w, home, ListsOf(s2.m), p, e, y);
  }

  /** Reading a directory moves last_dir there, and later relative names are looked for in it; but the cached
      parser does not get so far once the parent directory is seen. */
  lemma ReadDirectoryHides(w: World, home: string, start: string, p: string, e: string, y: string)
    requires Setting(w, home) && StrayDirectory(w, home, p, e, y)
    ensures !SameDeps(w, start, ReadsDirectory(home, p, e, y))
  {
    forall cached: bool
      ensures |Run(w, Fresh(start), ReadsDirectory(home, p, e, y), cached).m.srcDeps| == if cached then 1 else 2
    {
      var s := Opened(w, home, start, cached);
      OpeningRun(w, home, start, cached);
      RunOpened(w, home, start, [Read(1, p), Read(1, e), Read(1, y)], cached);
      ThreeSteps(w, s, Read(1, p), Read(1, e), Read(1, y), cached);
      NestedParent(e, y);
      StrayReads(w, home, s, p, e, y, cached);
    }
  }
}
