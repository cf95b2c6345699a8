/** meta2deps.py `cleanpath` (mk/meta2deps.py:120-139): what it computes, when that is the directory
    a path names, and the normal form it leaves. */
module CleanPath {
  import opened PyStrings

  /** A component cleanpath keeps. */
  predicate Proper(d: string) {
    d != "" && d != "." && d != ".." && '/' !in d
  }

  predicate AllProper(w: seq<string>) {
    forall k :: 0 <= k < |w| ==> Proper(w[k])
  }

  /** The loop over the components, from the list p built so far. An up-step on an empty list raises
      in `p.pop()` and breaks out of the loop, so the rest of the path is dropped. */
  function Kept(w: seq<string>, p: seq<string>): seq<string> {
    if w == [] then p
    else if w[0] == "" || w[0] == "." then Kept(w[1..], p)
    else if w[0] == ".." then
      if p == [] then p else Kept(w[1..], p[..|p| - 1])
    else Kept(w[1..], p + [w[0]])
  }

  function Lead(path: string): string { if "/" <= path then "/" else "" }

  function Clean(path: string): string {
    Lead(path) + Join(Kept(Split(path, '/'), []), '/')
  }

  /** cleanpath itself: push and pop on a list, and the early exit. */
  method CleanUp(path: string) returns (r: string)
    ensures r == Clean(path)
  {
    r := if "/" <= path then "/" else "";
    var p: seq<string> := [];
    var w := Split(path, '/');
    var i := 0;
    while i < |w|
      invariant 0 <= i <= |w|
      invariant Kept(w, []) == Kept(w[i..], p)
    {
      var d := w[i];
      i := i + 1;
      if d == "" || d == "." {
        continue;
      }
      if d == ".." {
        if p == [] { break; }
        p := p[..|p| - 1];
        continue;
      }
      p := p + [d];
    }
    r := r + Join(p, '/');
  }

  // ---- the reference reading: walk the directory tree ---------------------------------------

  /** The directory reached from dir by one component; the root is its own parent. */
  function Enter(dir: seq<string>, d: string): seq<string> {
    if d == "" || d == "." then dir
    else if d == ".." then if dir == [] then [] else dir[..|dir| - 1]
    else dir + [d]
  }

  function Walk(dir: seq<string>, w: seq<string>): seq<string>
    decreases |w|
  {
    if w == [] then dir else Walk(Enter(dir, w[0]), w[1..])
  }

  function Ups(w: seq<string>): nat {
    if w == [] then 0 else (if w[0] == ".." then 1 else 0) + Ups(w[1..])
  }

  function Downs(w: seq<string>): nat {
    if w == [] then 0 else (if w[0] in {"", ".", ".."} then 0 else 1) + Downs(w[1..])
  }

  /** Starting depth levels down, some prefix of w goes up more often than it can. */
  ghost predicate Climbs(w: seq<string>, depth: nat) {
    exists k :: 0 <= k <= |w| && Ups(w[..k]) > Downs(w[..k]) + depth
  }

  lemma ClimbsStep(w: seq<string>, depth: nat)
    requires w != []
    ensures w[0] in {"", "."} ==> (Climbs(w, depth) <==> Climbs(w[1..], depth))
    ensures w[0] == ".." && depth == 0 ==> Climbs(w, depth)
    ensures w[0] == ".." && depth > 0 ==> (Climbs(w, depth) <==> Climbs(w[1..], depth - 1))
    ensures w[0] !in {"", ".", ".."} ==> (Climbs(w, depth) <==> Climbs(w[1..], depth + 1))
  {
    var up := if w[0] == ".." then 1 else 0;
    var down := if w[0] in {"", ".", ".."} then 0 else 1;
    forall k | 1 <= k <= |w|
      ensures Ups(w[..k]) == up + Ups(w[1..][..k - 1])
      ensures Downs(w[..k]) == down + Downs(w[1..][..k - 1])
    {
      assert w[..k][1..] == w[1..][..k - 1];
    }
    if w[0] == ".." && depth == 0 {
      assert Ups(w[..1]) > Downs(w[..1]);
    } else {
      var d := depth + down - up;
      if Climbs(w[1..], d) {
        var k :| 0 <= k <= |w| - 1 && Ups(w[1..][..k]) > Downs(w[1..][..k]) + d;
        assert Ups(w[..k + 1]) == up + Ups(w[1..][..k]);
      }
      if Climbs(w, depth) {
        var k :| 0 <= k <= |w| && Ups(w[..k]) > Downs(w[..k]) + depth;
        assert k >= 1;
        assert Ups(w[1..][..k - 1]) > Downs(w[1..][..k - 1]) + d;
      }
    }
  }

  /** The loop keeps the directory the path names, unless the path climbs above its start: then the
      loop has just run out of list and keeps nothing, whatever follows. */
  lemma {:induction false} KeptIsWalk(w: seq<string>, p: seq<string>)
    ensures !Climbs(w, |p|) ==> Kept(w, p) == Walk(p, w)
    ensures Climbs(w, |p|) ==> Kept(w, p) == []
    decreases |w|
  {
    if w == [] {
      assert !Climbs(w, |p|);
    } else {
      ClimbsStep(w, |p|);
      if w[0] == "" || w[0] == "." {
        KeptIsWalk(w[1..], p);
      } else if w[0] == ".." {
        if p != [] { KeptIsWalk(w[1..], p[..|p| - 1]); }
      } else {
        KeptIsWalk(w[1..], p + [w[0]]);
      }
    }
  }

  /** A path that climbs and does not end at the root: cleanpath makes it the root. */
  lemma CleanCanMiss()
    ensures Clean("/../a") == "/" && Climbs(Split("/../a", '/'), 0) && Walk([], Split("/../a", '/')) == ["a"]
  {
    var w := ["", "..", "a"];
    SplitJoin(w, '/');
    assert Join(w, '/') == "/../a";
    assert w[1..] == ["..", "a"] && w[2..] == ["a"] && w[1..][1..] == ["a"] && ["a"][1..] == [];
    assert Walk([], ["a"]) == ["a"];
    assert Walk([], ["..", "a"]) == Walk([], ["a"]);
    KeptIsWalk(w, []);
    assert w[..2] == ["", ".."] && w[..2][1..] == [".."] && [".."][1..] == [];
    assert Ups([".."]) == 1 && Downs([".."]) == 0;
    assert Ups(w[..2]) == 1 && Downs(w[..2]) == 0;
  }

  /** For every absolute path: cleanpath gives the directory the path names exactly when the path
      stays at or below the root, or climbs and still ends at the root. */
  lemma CleanIsWalkExactly(path: string)
    requires "/" <= path
    ensures Clean(path) == "/" + Join(Walk([], Split(path, '/')), '/')
       <==> (!Climbs(Split(path, '/'), 0) || Walk([], Split(path, '/')) == [])
    ensures Climbs(Split(path, '/'), 0) ==> Clean(path) == "/"
  {
    var w := Split(path, '/');
    KeptIsWalk(w, []);
    if Climbs(w, 0) && Walk([], w) != [] {
      SplitPieces(path, '/');
      WalkProper(w, []);
      var v := Walk([], w);
      assert Proper(v[0]);
      assert Join(v, '/') != "";
    }
  }

  lemma {:induction false} WalkProper(w: seq<string>, p: seq<string>)
    requires AllProper(p) && forall k :: 0 <= k < |w| ==> '/' !in w[k]
    ensures AllProper(Walk(p, w)) && AllProper(Kept(w, p))
    decreases |w|
  {
    if w != [] {
      WalkProper(w[1..], Enter(p, w[0]));
    }
  }

  // ---- the normal form ----------------------------------------------------------------------

  lemma {:induction false} KeptProper(w: seq<string>, p: seq<string>)
    requires AllProper(w)
    ensures Kept(w, p) == p + w
    decreases |w|
  {
    if w != [] { KeptProper(w[1..], p + [w[0]]); }
  }

  lemma {:induction false} KeptAppend(u: seq<string>, v: seq<string>, p: seq<string>)
    ensures !Climbs(u, |p|) ==> Kept(u + v, p) == Kept(v, Kept(u, p))
    ensures Climbs(u, |p|) ==> Kept(u + v, p) == []
    decreases |u|
  {
    if u == [] {
      assert u + v == v;
      assert !Climbs(u, |p|);
    } else {
      ClimbsStep(u, |p|);
      assert (u + v)[1..] == u[1..] + v;
      if u[0] == "" || u[0] == "." {
        KeptAppend(u[1..], v, p);
      } else if u[0] == ".." {
        if p != [] { KeptAppend(u[1..], v, p[..|p| - 1]); }
      } else {
        KeptAppend(u[1..], v, p + [u[0]]);
      }
    }
  }

  /** Joining proper names, with or without the leading slash, and splitting again finds them. */
  lemma CleanOfJoin(q: seq<string>)
    requires AllProper(q)
    ensures Kept(Split("/" + Join(q, '/'), '/'), []) == q
    ensures Kept(Split(Join(q, '/'), '/'), []) == q
    ensures !("/" <= Join(q, '/'))
  {
    assert "/" + Join(q, '/') == "" + ['/'] + Join(q, '/');
    SplitAppend("", Join(q, '/'), '/');
    KeptProper(q, []);
    if q != [] {
      SplitJoin(q, '/');
      assert Proper(q[0]);
      assert Join(q, '/')[0] == q[0][0];
    } else {
      assert Split("", '/') == [""];
    }
    assert ([""] + Split(Join(q, '/'), '/'))[1..] == Split(Join(q, '/'), '/');
    assert [""][1..] == [];
    assert Kept([""], []) == [];
  }

  lemma CleanParts(path: string)
    ensures AllProper(Kept(Split(path, '/'), []))
  {
    SplitPieces(path, '/');
    WalkProper(Split(path, '/'), []);
  }

  lemma CleanIdempotent(path: string)
    ensures Clean(Clean(path)) == Clean(path)
    ensures "/" <= Clean(path) <==> "/" <= path
  {
    var q := Kept(Split(path, '/'), []);
    CleanParts(path);
    CleanOfJoin(q);
    assert "" + Join(q, '/') == Join(q, '/');
  }

  lemma CleanWhole(a: string, b: string)
    requires "/" <= a
    ensures Clean(a + "/" + b) == "/" + Join(Kept(Split(a, '/') + Split(b, '/'), []), '/')
  {
    assert a + "/" + b == a + ['/'] + b;
    SplitAppend(a, b, '/');
  }

  lemma CleanBehind(q: seq<string>, b: string)
    requires AllProper(q)
    ensures Clean("/" + Join(q, '/') + "/" + b) == "/" + Join(Kept(Split(b, '/'), q), '/')
  {
    var c := "/" + Join(q, '/');
    CleanWhole(c, b);
    CleanOfJoin(q);
    CleanUnclimbed(q);
    KeptAppend(Split(c, '/'), Split(b, '/'), []);
  }

  lemma CleanBehindRoot(b: string)
    ensures Clean("/" + b) == "/" + Join(Kept(Split(b, '/'), []), '/')
  {
    var v := Split(b, '/');
    assert "/" + b == "" + ['/'] + b;
    SplitAppend("", b, '/');
    assert ([""] + v)[1..] == v;
  }

  /** Cleaning the front of a path first changes nothing, exactly when the front does not climb above
      the root or the back names the root. */
  lemma CleanFrontExactly(a: string, b: string)
    requires "/" <= a
    ensures Clean(a + "/" + b) == Clean(Clean(a) + "/" + b)
       <==> (!Climbs(Split(a, '/'), 0) || Clean("/" + b) == "/")
  {
    var u, v := Split(a, '/'), Split(b, '/');
    CleanParts(a);
    CleanWhole(a, b);
    CleanBehind(Kept(u, []), b);
    CleanBehindRoot(b);
    KeptAppend(u, v, []);
    KeptIsWalk(u, []);
  }

  /** The front /.. climbs: cleaned first it is the root, and a is found below it. */
  lemma CleanFrontCanMiss()
    ensures Clean("/.." + "/" + "a") == "/" && Clean(Clean("/..") + "/" + "a") == "/a"
  {
    CleanCanMiss();
    assert "/.." + "/" + "a" == "/../a";
    UpIsRoot();
    CleanBehind([], "a");
    SplitPlain("a", '/');
    assert ["a"][1..] == [] && Kept(["a"], []) == ["a"];
  }

  lemma UpIsRoot()
    ensures Clean("/..") == "/" + Join([], '/')
  {
    var w := ["", ".."];
    SplitJoin(w, '/');
    assert Join(w, '/') == "/..";
    assert w[1..] == [".."] && [".."][1..] == [];
  }

  lemma CleanUnclimbed(q: seq<string>)
    requires AllProper(q)
    ensures !Climbs(Split("/" + Join(q, '/'), '/'), 0)
  {
    var w := Split("/" + Join(q, '/'), '/');
    assert "/" + Join(q, '/') == "" + ['/'] + Join(q, '/');
    SplitAppend("", Join(q, '/'), '/');
    if q != [] { SplitJoin(q, '/'); }
    forall k | 0 <= k <= |w| ensures Ups(w[..k]) == 0 {
      NoUps(w[..k]);
    }
  }

  lemma {:induction false} NoUps(w: seq<string>)
    requires forall k :: 0 <= k < |w| ==> w[k] != ".."
    ensures Ups(w) == 0
  {
    if w != [] { NoUps(w[1..]); }
  }

  // ---- canonical absolute paths -------------------------------------------------------------

  predicate Canonical(p: string) { "/" <= p && Clean(p) == p }

  /** The directory part of a path. */
  function Parent(p: string): string { SplitPath(p).0 }

  function Base(p: string): string { SplitPath(p).1 }

  lemma CanonicalJoin(q: seq<string>)
    requires AllProper(q)
    ensures Canonical("/" + Join(q, '/'))
  {
    CleanOfJoin(q);
  }

  /** Canonical paths are the root, and proper names each after a slash. */
  lemma CanonicalExactly(p: string)
    ensures Canonical(p) <==> p == "/" || ("/" <= p && AllProper(Split(p, '/')[1..]))
  {
    if Canonical(p) && p != "/" {
      var q := CanonicalNames(p);
      assert p == "" + ['/'] + Join(q, '/');
      SplitAppend("", Join(q, '/'), '/');
      SplitJoin(q, '/');
      assert ([""] + q)[1..] == q;
    }
    if "/" <= p && AllProper(Split(p, '/')[1..]) {
      JoinSplit(p, '/');
      var w := Split(p, '/');
      assert p[0] == '/' && w == [""] + Split(p[1..], '/');
      assert Join(w, '/') == "" + ['/'] + Join(w[1..], '/');
      CanonicalJoin(w[1..]);
    }
    if p == "/" {
      CanonicalJoin([]);
      assert "/" + "" == "/";
    }
  }

  lemma CanonicalNames(p: string) returns (q: seq<string>)
    requires Canonical(p)
    ensures AllProper(q) && p == "/" + Join(q, '/')
  {
    q := Kept(Split(p, '/'), []);
    CleanParts(p);
  }

  lemma ProperEnd(q: seq<string>)
    requires AllProper(q) && q != []
    ensures Join(q, '/') != "" && Join(q, '/')[0] != '/'
    ensures Join(q, '/')[|Join(q, '/')| - 1] != '/'
    ensures !EndsWith("/" + Join(q, '/'), "/.")
  {
    var x := q[|q| - 1];
    assert Proper(q[0]) && Proper(x);
    var head := JoinedLast(q);
    assert Join(q, '/')[0] == q[0][0];
    NoDotEnd("/" + head, x);
    assert "/" + head + x == "/" + Join(q, '/');
  }

  lemma JoinedLast(q: seq<string>) returns (head: string)
    requires q != []
    ensures Join(q, '/') == head + q[|q| - 1]
  {
    var x := q[|q| - 1];
    assert q == q[..|q| - 1] + [x];
    if |q| > 1 {
      JoinSnoc(q[..|q| - 1], x, '/');
      head := Join(q[..|q| - 1], '/') + "/";
    } else {
      head := "";
    }
  }

  lemma NoDotEnd(h: string, x: string)
    requires Proper(x)
    ensures !EndsWith(h + x, "/.")
  {
    var s := h + x;
    assert s[|s| - 1] == x[|x| - 1];
    if |x| >= 2 {
      assert s[|s| - 2] == x[|x| - 2];
      assert x[|x| - 2] != '/';
    }
  }

  lemma SplitBelow(h: string, x: string)
    requires h != "" && h[|h| - 1] != '/' && '/' !in x
    ensures SplitPath(h + "/" + x) == (h, x)
  {
    LastSlashAt(h, x);
    var p := h + "/" + x;
    assert p[..|h| + 1] == h + "/" && p[|h| + 1..] == x;
    assert (h + "/")[|h| - 1] != '/' && !AllSlashes(h + "/");
    assert (h + "/")[..|h|] == h;
    assert RStripSlash(h + "/") == RStripSlash(h) == h;
  }

  lemma SplitTop(x: string)
    requires '/' !in x
    ensures SplitPath("/" + x) == ("/", x)
  {
    LastSlashAt("", x);
    assert "" + "/" + x == "/" + x;
    assert ("/" + x)[..1] == "/" && ("/" + x)[1..] == x;
  }

  /** Taking a canonical path other than the root apart: a canonical directory and a plain name. */
  lemma CanonicalSplit(p: string)
    requires Canonical(p) && p != "/"
    ensures Canonical(Parent(p)) && Proper(Base(p))
    ensures Parent(p) == "/" ==> p == "/" + Base(p)
    ensures Parent(p) != "/" ==> p == Parent(p) + "/" + Base(p)
    ensures !EndsWith(p, "/.")
  {
    var q := CanonicalNames(p);
    ProperEnd(q);
    var x, r := q[|q| - 1], q[..|q| - 1];
    assert Proper(x) && q == r + [x];
    if r == [] {
      SplitTop(x);
      CanonicalJoin([]);
    } else {
      SplitNested(r, x);
    }
  }

  lemma SplitNested(r: seq<string>, x: string)
    requires AllProper(r) && r != [] && Proper(x)
    ensures var h, p := "/" + Join(r, '/'), "/" + Join(r + [x], '/');
      p == h + "/" + x && SplitPath(p) == (h, x) && Canonical(h) && h != "/"
  {
    JoinSnoc(r, x, '/');
    ProperEnd(r);
    CanonicalJoin(r);
    SplitUnder(Join(r, '/'), x);
  }

  lemma SplitUnder(j: string, x: string)
    requires j != "" && j[|j| - 1] != '/' && '/' !in x
    ensures "/" + (j + ['/'] + x) == "/" + j + "/" + x && SplitPath("/" + j + "/" + x) == ("/" + j, x)
  {
    var h := "/" + j;
    assert h[|h| - 1] == j[|j| - 1];
    SplitBelow(h, x);
  }

  lemma TopPath(x: string)
    requires Proper(x)
    ensures Canonical("/" + x) && Parent("/" + x) == "/" && Base("/" + x) == x
  {
    assert Join([x], '/') == x;
    CanonicalJoin([x]);
    SplitTop(x);
  }

  lemma PathBelow(h: string, x: string)
    requires Canonical(h) && h != "/" && Proper(x)
    ensures Canonical(h + "/" + x) && Parent(h + "/" + x) == h && Base(h + "/" + x) == x
  {
    var q := CanonicalNames(h);
    SplitNested(q, x);
    CanonicalJoin(q + [x]);
  }
}
