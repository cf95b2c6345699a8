/** Where a chdir leads and what a relative name names, against a walk through the directory tree. */
module MetaPaths {
  import opened Wrappers
  import opened PyStrings
  import opened CleanPath
  import opened MetaSpec
  import opened MetaCache

  /** The directory a walk from the root along p ends in. */
  function Walked(p: string): string { "/" + Join(Walk([], Split(p, '/')), '/') }

  lemma {:induction false} WalkAppend(dir: seq<string>, u: seq<string>, v: seq<string>)
    ensures Walk(dir, u + v) == Walk(Walk(dir, u), v)
    decreases |u|
  {
    if u == [] {
      assert u + v == v;
    } else {
      assert (u + v)[1..] == u[1..] + v;
      WalkAppend(Enter(dir, u[0]), u[1..], v);
    }
  }

  lemma {:induction false} WalkDown(dir: seq<string>, q: seq<string>)
    requires AllProper(q)
    ensures Walk(dir, q) == dir + q
    decreases |q|
  {
    if q != [] {
      assert Proper(q[0]);
      WalkDown(dir + [q[0]], q[1..]);
      assert dir + [q[0]] + q[1..] == dir + q;
    }
  }

  /** The names on a canonical path, and its pieces. */
  lemma NamesOf(p: string) returns (q: seq<string>)
    requires Canonical(p)
    ensures AllProper(q) && p == "/" + Join(q, '/') && Walk([], Split(p, '/')) == q
    ensures Split(p, '/') == if q == [] then ["", ""] else [""] + q
  {
    q := CanonicalNames(p);
    assert p == "" + ['/'] + Join(q, '/');
    SplitAppend("", Join(q, '/'), '/');
    if q == [] {
      assert Split(p, '/') == ["", ""];
      assert ["", ""][1..] == [""] && [""][1..] == [];
    } else {
      SplitJoin(q, '/');
      assert ([""] + q)[1..] == q;
      WalkDown([], q);
      assert [] + q == q;
    }
  }

  lemma CanonicalWalked(p: string)
    requires Canonical(p)
    ensures Walked(p) == p
  {
    var q := NamesOf(p);
  }

  lemma WalkedBelow(p: string, x: string, q: seq<string>)
    requires Walk([], Split(p, '/')) == q
    ensures Walked(p + "/" + x) == "/" + Join(Walk(q, Split(x, '/')), '/')
  {
    assert p + "/" + x == p + ['/'] + x;
    SplitAppend(p, x, '/');
    WalkAppend([], Split(p, '/'), Split(x, '/'));
  }

  /** The directory above: that part of the path, and the root for the root itself. */
  lemma DotDotIsParent(d: string)
    requires Canonical(d)
    ensures DotDot(d) == Parent(d) == Walked(d + "/" + "..") && Canonical(DotDot(d))
  {
    var q := NamesOf(d);
    WalkedUp(d, q);
    if q == [] {
      RootParts();
      assert ["", ""][..1] == [""];
    } else {
      var r, x := q[..|q| - 1], q[|q| - 1];
      assert q == r + [x];
      UpFrom(r, x);
      DotDotBelow(d, r, x);
      CanonicalJoin(r);
    }
  }

  lemma WalkedUp(d: string, q: seq<string>)
    requires Walk([], Split(d, '/')) == q
    ensures Walked(d + "/" + "..") == "/" + Join(if q == [] then [] else q[..|q| - 1], '/')
  {
    WalkedBelow(d, "..", q);
    SplitPlain("..", '/');
    assert [".."][1..] == [];
    assert Walk(q, [".."]) == Enter(q, "..");
  }

  lemma DotDotBelow(d: string, r: seq<string>, x: string)
    requires Split(d, '/') == [""] + (r + [x])
    ensures DotDot(d) == "/" + Join(r, '/')
  {
    assert ([""] + (r + [x]))[..|r| + 1] == [""] + r;
    JoinRooted(r);
    if r == [] { assert "/" + Join(r, '/') == "/"; }
  }

  lemma JoinRooted(r: seq<string>)
    ensures Join([""] + r, '/') == if r == [] then "" else "/" + Join(r, '/')
  {
    assert ([""] + r)[1..] == r;
    if r == [] { assert [""] + r == [""]; }
  }

  lemma UpFrom(r: seq<string>, x: string)
    requires AllProper(r + [x])
    ensures Parent("/" + Join(r + [x], '/')) == "/" + Join(r, '/')
  {
    assert Proper((r + [x])[|r|]);
    forall k | 0 <= k < |r| ensures Proper(r[k]) { assert (r + [x])[k] == r[k]; }
    if r == [] {
      assert r + [x] == [x];
      SplitTop(x);
    } else {
      SplitNested(r, x);
    }
  }

  // ---- chdir ------------------------------------------------------------------------------------

  /** What is resolved is cleaned where that is asked for. */
  lemma ChdirOfResolved(w: World, cwd: string, dir: string, p: string, c: string)
    requires Resolve(w, dir, cwd, None) == Some(p) && p != "" && c != "" && !EndsWith(c, "/.")
    requires c == if NeedsCleaning(p) then Clean(p) else p
    ensures ChdirTo(w, cwd, dir) == c
  {}

  /** A canonical path is neither cleaned nor cut. */
  lemma ChdirEnds(w: World, cwd: string, dir: string, p: string)
    requires Canonical(p) && Resolve(w, dir, cwd, None) == Some(p)
    ensures ChdirTo(w, cwd, dir) == p
  {
    CanonicalEnd(p);
    ChdirOfResolved(w, cwd, dir, p, p);
  }

  lemma CanonicalEnd(p: string)
    requires Canonical(p)
    ensures p != "" && !EndsWith(p, "/.")
  {
    if p != "/" { CanonicalSplit(p); }
  }

  lemma CleanedEnd(p: string)
    requires "/" <= p
    ensures Canonical(Clean(p))
  {
    CleanIdempotent(p);
  }

  /** The argument of a chdir is the directory above, the directory itself, or a name of proper components found in
      it; not from the root. */
  predicate PlainStep(w: World, cwd: string, dir: string) {
    dir == ".." || dir == "." || (AllProper(Split(dir, '/')) && w.present(cwd + "/" + dir) && cwd != "/")
  }

  lemma NotAbsolute(dir: string)
    requires "/" <= dir
    ensures !AllProper(Split(dir, '/'))
  {
    var w := Split(dir[1..], '/');
    assert Split(dir, '/') == [""] + w;
    assert !Proper(([""] + w)[0]);
  }

  lemma ProperBelow(cwd: string, dir: string)
    requires Canonical(cwd) && cwd != "/" && AllProper(Split(dir, '/'))
    ensures Canonical(cwd + "/" + dir) && !("/" <= dir)
  {
    var q := NamesOf(cwd);
    var p := cwd + "/" + dir;
    assert p == cwd + ['/'] + dir;
    SplitAppend(cwd, dir, '/');
    assert Split(p, '/')[1..] == q + Split(dir, '/');
    CanonicalExactly(p);
    if "/" <= dir { NotAbsolute(dir); }
  }

  /** Such a chdir goes where the walk goes. */
  lemma ChdirWalks(w: World, cwd: string, dir: string)
    requires Canonical(cwd) && PlainStep(w, cwd, dir)
    ensures ChdirTo(w, cwd, dir) == Walked(cwd + "/" + dir)
    ensures dir == ".." ==> ChdirTo(w, cwd, dir) == Parent(cwd)
    ensures dir == "." ==> ChdirTo(w, cwd, dir) == cwd
  {
    if dir == ".." {
      DotDotIsParent(cwd);
      ChdirEnds(w, cwd, dir, DotDot(cwd));
    } else if dir == "." {
      var q := NamesOf(cwd);
      WalkedBelow(cwd, ".", q);
      SplitPlain(".", '/');
      assert ["."][1..] == [];
      assert Walk(q, ["."]) == Enter(q, ".");
      ChdirEnds(w, cwd, dir, cwd);
    } else {
      ProperBelow(cwd, dir);
      NoDots(cwd, dir);
      CanonicalWalked(cwd + "/" + dir);
      ChdirEnds(w, cwd, dir, cwd + "/" + dir);
    }
  }

  /** A relative name that resolve looks for, with last_dir and cwd in front. */
  predicate Searched(x: string) {
    StripDots(x) == x && !("/" <= x) && x != "." && x != ".." && !("./" <= x)
  }

  /** A path that abspath cleans: the chdir goes where the walk goes exactly when the path does not climb above the
      root, or ends at the root. */
  lemma ChdirCleans(w: World, cwd: string, dir: string)
    requires "/" <= cwd && Searched(dir) && w.present(cwd + "/" + dir) && NeedsCleaning(cwd + "/" + dir)
    ensures var p := cwd + "/" + dir;
      ChdirTo(w, cwd, dir) == Walked(p) <==> !Climbs(Split(p, '/'), 0) || Walk([], Split(p, '/')) == []
  {
    var p := cwd + "/" + dir;
    CleanIsWalkExactly(p);
    CleanedEnd(p);
    CanonicalEnd(Clean(p));
    SearchedIsFound(w, cwd, dir);
    ChdirOfResolved(w, cwd, dir, p, Clean(p));
  }

  lemma SearchedIsFound(w: World, cwd: string, dir: string)
    requires cwd != "" && Searched(dir) && w.present(cwd + "/" + dir)
    ensures Resolve(w, dir, cwd, None) == Some(cwd + "/" + dir)
  {}

  /** From the root a name is spelt with a doubled slash, which stays unless something else has the path cleaned. */
  lemma ChdirFromRootExactly(w: World, dir: string)
    requires AllProper(Split(dir, '/')) && Searched(dir) && w.present("/" + "/" + dir)
    ensures Walked("/" + "/" + dir) == "/" + dir
    ensures ChdirTo(w, "/", dir) == "/" + dir <==> NeedsCleaning("/" + "/" + dir)
  {
    var p := "/" + "/" + dir;
    DoubledWalk(dir);
    SearchedIsFound(w, "/", dir);
    if NeedsCleaning(p) {
      DoubledClean(dir);
      CanonicalEnd("/" + dir);
      ChdirOfResolved(w, "/", dir, p, "/" + dir);
    } else {
      ChdirOfResolved(w, "/", dir, p, p);
      assert |p| == |dir| + 2;
    }
  }

  lemma DoubledWalk(dir: string)
    requires AllProper(Split(dir, '/'))
    ensures Walked("/" + "/" + dir) == "/" + dir && Canonical("/" + dir) && !EndsWith("/" + "/" + dir, "/.")
  {
    var q := Split(dir, '/');
    RootWalk();
    WalkedBelow("/", dir, []);
    WalkDown([], q);
    JoinSplit(dir, '/');
    assert [] + q == q;
    CanonicalJoin(q);
    CanonicalEnd("/" + dir);
    DoubledEnd("/" + dir);
  }

  lemma DoubledEnd(t: string)
    requires "/" <= t && !EndsWith(t, "/.")
    ensures !EndsWith("/" + t, "/.") && "/" + t == "/" + "/" + t[1..]
  {
    var p := "/" + t;
    if |t| >= 2 { assert p[|p| - 2..] == t[|t| - 2..]; } else { assert p == "//"; }
  }

  lemma RootWalk()
    ensures Walk([], Split("/", '/')) == []
  {
    assert Split("/", '/') == ["", ""];
    assert ["", ""][1..] == [""] && [""][1..] == [];
  }

  lemma DoubledClean(dir: string)
    requires AllProper(Split(dir, '/'))
    ensures Clean("/" + "/" + dir) == "/" + dir
  {
    assert "/" + Join([], '/') == "/";
    CleanBehind([], dir);
    CleanBehindRoot(dir);
    JoinSplit(dir, '/');
    CanonicalJoin(Split(dir, '/'));
  }

  /** Where nothing is there, the name itself stays: an absolute one as it is, a relative one cleaned where that is
      asked for. */
  lemma ChdirMissing(w: World, cwd: string, dir: string)
    requires cwd != "" && dir != "" && !EndsWith(dir, "/.")
    ensures "/" <= dir && !w.present(dir) ==> ChdirTo(w, cwd, dir) == dir
    ensures Searched(dir) && !w.present(cwd + "/" + dir) && AllProper(Split(dir, '/')) ==> ChdirTo(w, cwd, dir) == dir
    ensures Searched(dir) && !w.present(cwd + "/" + dir) && NeedsCleaning(dir) && Clean(dir) != "" ==>
      ChdirTo(w, cwd, dir) == Clean(dir)
  {
    if Searched(dir) && !w.present(cwd + "/" + dir) {
      assert Resolve(w, dir, cwd, None) == None;
      if AllProper(Split(dir, '/')) { ProperCleaned(dir); }
      CleanEnd(dir);
    }
  }

  lemma ProperCleaned(dir: string)
    requires AllProper(Split(dir, '/'))
    ensures Clean(dir) == dir
  {
    if "/" <= dir { NotAbsolute(dir); }
    KeptProper(Split(dir, '/'), []);
    assert [] + Split(dir, '/') == Split(dir, '/');
    JoinSplit(dir, '/');
  }

  lemma {:induction false} KeptProper(q: seq<string>, p: seq<string>)
    requires AllProper(q)
    ensures Kept(q, p) == p + q
    decreases |q|
  {
    if q != [] {
      assert Proper(q[0]);
      KeptProper(q[1..], p + [q[0]]);
      assert p + [q[0]] + q[1..] == p + q;
    }
  }

  /** Cleaned paths do not end in a dot behind a slash. */
  lemma CleanEnd(path: string)
    ensures !EndsWith(Clean(path), "/.")
  {
    var q := Kept(Split(path, '/'), []);
    CleanParts(path);
    if q != [] {
      ProperEnd(q);
      TailEnd(Join(q, '/'));
    }
  }

  lemma TailEnd(j: string)
    requires !EndsWith("/" + j, "/.")
    ensures !EndsWith(j, "/.") && !EndsWith("" + j, "/.")
  {
    var p := "/" + j;
    if |j| >= 2 { assert p[|p| - 2..] == j[|j| - 2..]; }
    assert "" + j == j;
  }

  // ---- names --------------------------------------------------------------------------------------

  lemma SearchedResolves(w: World, x: string, cwd: string, last: string)
    requires cwd != "" && last != "" && Searched(x)
    ensures Resolve(w, x, cwd, Some(last)) ==
      if w.present(last + "/" + x) then Some(last + "/" + x)
      else if w.present(cwd + "/" + x) then Some(cwd + "/" + x)
      else None
  {}

  /** A relative name is looked for in last_dir first and then in the directory of the process, and is found in no
      other place. */
  lemma NameFoundExactly(w: World, x: string, cwd: string, last: string, p: string)
    requires cwd != "" && last != "" && Searched(x)
    ensures Resolve(w, x, cwd, Some(last)) == Some(p) <==>
      w.present(p) && (p == last + "/" + x || (p == cwd + "/" + x && !w.present(last + "/" + x)))
  {
    SearchedResolves(w, x, cwd, last);
  }

  /** Two dots are the directory above last_dir, not above that of the process. */
  lemma DotsFromLastDir(w: World, cwd: string, last: string)
    requires Canonical(last)
    ensures Resolve(w, "..", cwd, Some(last)) == Some(Parent(last))
  {
    DotDotIsParent(last);
  }

  function Dots(n: nat): string { if n == 0 then "" else Dots(n - 1) + "/." }

  lemma OneMore(r: string, n: nat)
    ensures r + Dots(n) + "/." == r + Dots(n + 1)
  {}

  /** Of the end of a name, every slash with a dot goes that has only such behind it. */
  lemma {:induction false} StripDotsExactly(path: string) returns (n: nat)
    ensures path == StripDots(path) + Dots(n) && !EndsWith(StripDots(path), "/.")
    decreases |path|
  {
    if EndsWith(path, "/.") {
      var p := path[..|path| - 2];
      n := StripDotsExactly(p);
      assert path == p + "/.";
      OneMore(StripDots(p), n);
      n := n + 1;
    } else {
      n := 0;
    }
  }

  /** A name is excluded exactly when some entry of the list, not empty, is how it begins. */
  lemma ExcludedExactly(path: string, excludes: seq<string>)
    ensures Excluded(path, excludes) <==> exists p, rest :: p in excludes && p != "" && path == p + rest
  {
    if Excluded(path, excludes) {
      var p :| p in excludes && p != "" && p <= path;
      assert path == p + path[|p|..];
    }
  }
}
