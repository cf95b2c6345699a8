/** A file system of a few directories, one of them a link to another, on which each family of MetaHides shows. */
module MetaExample {
  import opened Wrappers
  import opened PyStrings
  import opened CleanPath
  import opened MetaSpec
  import opened MetaCache
  import opened MetaHides

  // ---- the file system ----------------------------------------------------------------------------

  const DIRS := {"/", "/s", "/s/a", "/s/b", "/s/a/e", "/s/b/e"}
  const FILES := {"/s/x", "/s/a/x", "/s/b/x"}

  function Behind(d: string): string { if d == "/s/b" then "/s/a" else if d == "/s/b/e" then "/s/a/e" else d }

  datatype Disk = Disk(file: string -> bool, dir: string -> bool, behind: string -> string)

  /** A disk with just these canonical paths, b a link to a, on which a doubled slash is one. */
  ghost predicate Shaped(k: Disk) {
    && (forall p :: Canonical(p) ==>
          (k.dir(p) <==> p in DIRS) && (k.file(p) <==> p in FILES) && k.behind(p) == Behind(p))
    && (forall p :: "/" <= p ==> k.dir("/" + p) == k.dir(p))
    && DoubledOn(k)
  }

  predicate DoubledOn(k: Disk) {
    && k.dir("/s//a") && k.behind("/s//a") == "/s/a" && k.file("/s//a/x") && !k.dir("/s//a/x")
    && !k.file("//x") && !k.dir("//x")
  }

  /** Leading slashes beyond the first do not matter, and neither does a doubled one before a. */
  function Meant(p: string): string {
    if "//" <= p then Meant(p[1..])
    else if p == "/s//a" then "/s/a"
    else if p == "/s//a/x" then "/s/a/x"
    else p
  }

  /** There is such a disk. */
  function TheDisk(): Disk { DiskOf(Meant) }

  function DiskOf(meant: string -> string): Disk {
    Disk(p => meant(p) in FILES, p => meant(p) in DIRS, p => Behind(meant(p)))
  }

  lemma DoubledNotCanonical(a: string, b: string)
    ensures !Canonical(a + "/" + "/" + b)
  {
    var p := a + "/" + "/" + b;
    assert p == a + ['/'] + ("" + ['/'] + b);
    SplitAppend(a, "" + ['/'] + b, '/');
    SplitAppend("", b, '/');
    CanonicalExactly(p);
    var u := Split(a, '/');
    assert Split(p, '/')[1..][|u| - 1] == "";
  }

  lemma OtherSpellings()
    ensures !Canonical("/s//a") && !Canonical("/s//a/x")
  {
    DoubledNotCanonical("/s", "a");
    DoubledNotCanonical("/s", "a/x");
    assert "/s" + "/" + "/" + "a" == "/s//a" && "/s" + "/" + "/" + "a/x" == "/s//a/x";
  }

  lemma LeadNotCanonical(p: string)
    requires "//" <= p
    ensures !Canonical(p)
  {
    DoubledNotCanonical("", p[2..]);
    assert "" + "/" + "/" + p[2..] == p;
  }

  lemma CanonicalMeant(p: string)
    requires Canonical(p)
    ensures Meant(p) == p
  {
    OtherSpellings();
    if "//" <= p {
      LeadNotCanonical(p);
    }
  }

  lemma DiskMeans()
    ensures forall p :: Canonical(p) ==>
      (TheDisk().dir(p) <==> p in DIRS) && (TheDisk().file(p) <==> p in FILES) && TheDisk().behind(p) == Behind(p)
  {
    forall p | Canonical(p) ensures Meant(p) == p { CanonicalMeant(p); }
  }

  lemma LeadMeans(p: string)
    requires "/" <= p
    ensures Meant("/" + p) == Meant(p)
  {
    assert ("/" + p)[1..] == p;
  }

  lemma DiskShaped()
    ensures Shaped(TheDisk())
  {
    DiskMeans();
    DiskLeads(TheDisk());
    DoubledMeans();
  }

  lemma DiskLeads(k: Disk)
    requires k == TheDisk()
    ensures forall p :: "/" <= p ==> k.dir("/" + p) == k.dir(p)
  {
    forall p | "/" <= p ensures k.dir("/" + p) == k.dir(p) { LeadMeans(p); }
  }

  lemma OneSlash(p: string)
    requires |p| >= 2 && p[1] != '/'
    ensures !("//" <= p)
  {}

  lemma DoubledMeant()
    ensures Meant("/s//a") == "/s/a"
  {
    OneSlash("/s//a");
  }

  lemma DoubledFileMeant()
    ensures Meant("/s//a/x") == "/s/a/x"
  {
    OneSlash("/s//a/x");
  }

  lemma LeadingMeant()
    ensures Meant("//x") == "/x"
  {
    OneSlash("/x");
    assert "/" + "/x" == "//x" && "/" <= "/x";
    LeadMeans("/x");
  }

  predicate IsIn(p: string, s: set<string>) { p in s }

  lemma AmongDirs()
    ensures IsIn("/s/a", DIRS) && !IsIn("/s/a/x", DIRS) && !IsIn("/x", DIRS)
  {}

  lemma AmongFiles()
    ensures IsIn("/s/a/x", FILES) && !IsIn("/x", FILES)
  {}

  lemma DiskAt(meant: string -> string, p: string, q: string)
    requires meant(p) == q
    ensures var k := DiskOf(meant);
      k.dir(p) == IsIn(q, DIRS) && k.file(p) == IsIn(q, FILES) && k.behind(p) == Behind(q)
  {}

  lemma DoubledOf(meant: string -> string)
    requires meant("/s//a") == "/s/a" && meant("/s//a/x") == "/s/a/x" && meant("//x") == "/x"
    ensures DoubledOn(DiskOf(meant))
  {
    AmongDirs();
    AmongFiles();
    DiskAt(meant, "/s//a", "/s/a");
    DiskAt(meant, "/s//a/x", "/s/a/x");
    DiskAt(meant, "//x", "/x");
  }

  lemma DoubledMeans()
    ensures DoubledOn(TheDisk())
  {
    DoubledMeant();
    DoubledFileMeant();
    LeadingMeant();
    DoubledOf(Meant);
  }

  /** Source root /s/ on the disk. */
  function On(k: Disk, excludes: seq<string>): World {
    World(p => k.file(p) || k.dir(p), p => k.dir(p), p => k.behind(p), _ => false, ["/s/"], [], excludes, "none", None,
          None)
  }

  // ---- its paths ----------------------------------------------------------------------------------

  /** The paths of the example and their parents. */
  lemma Paths()
    ensures Canonical("/s") && Parent("/s") == "/" && Canonical("/s/x") && Parent("/s/x") == "/s"
    ensures Canonical("/s/a") && Parent("/s/a") == "/s" && Canonical("/s/a/x") && Parent("/s/a/x") == "/s/a"
    ensures Canonical("/s/b") && Parent("/s/b") == "/s" && Canonical("/s/b/x") && Parent("/s/b/x") == "/s/b"
    ensures Canonical("/s/a/e") && Parent("/s/a/e") == "/s/a" && Canonical("/s/b/e") && Parent("/s/b/e") == "/s/b"
  {
    TopPath("s");
    assert "/" + "s" == "/s";
    SourcePaths();
    FilePaths();
    LowestPaths();
  }

  lemma LowestPaths()
    requires Canonical("/s/a") && Canonical("/s/b")
    ensures Canonical("/s/a/e") && Parent("/s/a/e") == "/s/a" && Canonical("/s/b/e") && Parent("/s/b/e") == "/s/b"
  {
    assert "/s/a" + "/" + "e" == "/s/a/e" && "/s/b" + "/" + "e" == "/s/b/e";
    PathBelow("/s/a", "e");
    PathBelow("/s/b", "e");
  }

  lemma SourcePaths()
    requires Canonical("/s")
    ensures Canonical("/s/x") && Parent("/s/x") == "/s"
    ensures Canonical("/s/a") && Parent("/s/a") == "/s"
    ensures Canonical("/s/b") && Parent("/s/b") == "/s"
  {
    assert "/s" + "/" + "x" == "/s/x" && "/s" + "/" + "a" == "/s/a" && "/s" + "/" + "b" == "/s/b";
    PathBelow("/s", "x");
    PathBelow("/s", "a");
    PathBelow("/s", "b");
  }

  lemma FilePaths()
    requires Canonical("/s/a") && Canonical("/s/b")
    ensures Canonical("/s/a/x") && Parent("/s/a/x") == "/s/a"
    ensures Canonical("/s/b/x") && Parent("/s/b/x") == "/s/b"
  {
    assert "/s/a" + "/" + "x" == "/s/a/x" && "/s/b" + "/" + "x" == "/s/b/x";
    PathBelow("/s/a", "x");
    PathBelow("/s/b", "x");
  }

  predicate ParentIs(p: string, d: string) { Parent(p) == d }

  lemma Parents()
    ensures ParentIs("/", "/") && ParentIs("/s", "/") && ParentIs("/s/x", "/s")
    ensures ParentIs("/s/a", "/s") && ParentIs("/s/a/x", "/s/a") && ParentIs("/s/b", "/s") && ParentIs("/s/b/x", "/s/b")
    ensures ParentIs("/s/a/e", "/s/a") && ParentIs("/s/b/e", "/s/b")
  {
    Paths();
    RootParts();
  }

  lemma KnownParent(p: string)
    requires p in DIRS || p in FILES
    ensures Parent(p) in DIRS
  {
    if p in DIRS { DirParent(p); } else { FileParent(p); }
  }

  predicate ParentAmong(p: string, a: string, b: string) { ParentIs(p, a) || ParentIs(p, b) }

  lemma DirParent(p: string)
    requires p in DIRS
    ensures Parent(p) in DIRS
  {
    if |p| == 6 {
      LowestParent(p);
    } else if p == "/" {
      RootParts();
    } else {
      UpperParent(p);
    }
  }

  lemma LowestParent(p: string)
    requires p in {"/s/a/e", "/s/b/e"}
    ensures Parent(p) in DIRS
  {
    Parents();
    assert ParentAmong(p, "/s/a", "/s/b");
  }

  lemma UpperParent(p: string)
    requires p in {"/s", "/s/a", "/s/b"}
    ensures Parent(p) in DIRS
  {
    Parents();
    assert ParentAmong(p, "/", "/s");
  }

  lemma FileParent(p: string)
    requires p in FILES
    ensures Parent(p) in DIRS
  {
    Parents();
    assert ParentIs(p, "/s") || ParentAmong(p, "/s/a", "/s/b");
  }

  lemma KnownCanonical(p: string)
    requires p in DIRS || p in FILES
    ensures Canonical(p)
  {
    if p in DIRS { DirCanonical(p); } else { FileCanonical(p); }
  }

  lemma OneOfThree(a: string, b: string, c: string, p: string)
    requires p in {a, b, c} && IsCanonical(a) && IsCanonical(b) && IsCanonical(c)
    ensures IsCanonical(p)
  {}

  lemma DirCanonical(p: string)
    requires p in DIRS
    ensures IsCanonical(p)
  {
    if p == "/" {
      CanonicalExactly(p);
    } else {
      LowerDirCanonical(p);
    }
  }

  lemma LowerDirCanonical(p: string)
    requires p in {"/s", "/s/a", "/s/b", "/s/a/e", "/s/b/e"}
    ensures IsCanonical(p)
  {
    Canonicals();
    if |p| <= 4 { OneOfThree("/s", "/s/a", "/s/b", p); } else { OneOfThree("/s/a/e", "/s/b/e", "/s", p); }
  }

  lemma FileCanonical(p: string)
    requires p in FILES
    ensures IsCanonical(p)
  {
    CanonicalFiles();
    OneOfThree("/s/x", "/s/a/x", "/s/b/x", p);
  }

  predicate IsCanonical(p: string) { Canonical(p) }

  lemma Canonicals()
    ensures IsCanonical("/s") && IsCanonical("/s/a") && IsCanonical("/s/b")
    ensures IsCanonical("/s/a/e") && IsCanonical("/s/b/e")
  {
    Paths();
  }

  lemma CanonicalFiles()
    ensures IsCanonical("/s/x") && IsCanonical("/s/a/x") && IsCanonical("/s/b/x")
  {
    Paths();
  }

  lemma Known(k: Disk, excludes: seq<string>, p: string)
    requires Shaped(k)
    ensures p in DIRS ==> On(k, excludes).isDir(p)
    ensures p in FILES ==> On(k, excludes).present(p) && !On(k, excludes).isDir(p) && !EndsWith(p, ".dirdep")
  {
    if p in DIRS || p in FILES {
      KnownCanonical(p);
      NotBoth(p);
    }
  }

  lemma NotBoth(p: string)
    ensures !(p in DIRS && p in FILES) && (p in FILES ==> !EndsWith(p, ".dirdep"))
  {}

  // ---- it meets the assumptions of the claim ------------------------------------------------------

  lemma BehindKnown(d: string)
    requires d in DIRS
    ensures Behind(d) in DIRS && Behind(Behind(d)) == Behind(d)
  {}

  lemma DiskLaws(k: Disk, excludes: seq<string>, p: string)
    requires Shaped(k)
    ensures PathLaws(On(k, excludes), p)
  {
    if Canonical(p) && (p in DIRS || p in FILES) {
      KnownParent(p);
      KnownCanonical(Parent(p));
    }
    if Canonical(p) && p in DIRS {
      BehindKnown(p);
      KnownCanonical(Behind(p));
    }
  }

  lemma DiskSetting(k: Disk, excludes: seq<string>)
    requires Shaped(k)
    ensures Setting(On(k, excludes), "/")
  {
    var w := On(k, excludes);
    forall p ensures PathLaws(w, p) { DiskLaws(k, excludes, p); }
    Known(k, excludes, "/");
    assert EndsWith("/s/", "/");
  }

  lemma FindSource(k: Disk, excludes: seq<string>, d: string)
    requires "/s/" <= d + "/"
    ensures SrcName(On(k, excludes), d) == Some(Remove(d, "/s/"))
  {
    assert FindTop(d + "/", ["/s/"]) == Some("/s/");
  }

  lemma NothingToRemove(x: string, t: string)
    requires t != "" && t[0] !in x
    ensures Remove(x, t) == x
  {
    forall k ensures !OccursAt(x, t, k) {
      if OccursAt(x, t, k) { FirstInside(x, t, k); }
    }
    RemoveAbsent(x, t);
  }

  lemma FirstInside(x: string, t: string, k: int)
    requires OccursAt(x, t, k) && t != ""
    ensures t[0] in x
  {
    assert x[k..][0] == x[k];
  }

  lemma RemoveFront(t: string, x: string)
    requires t != "" && t[0] !in x
    ensures Remove(t + x, t) == x
  {
    assert (t + x)[|t|..] == x;
    NothingToRemove(x, t);
  }

  /** A name with one slash too few for the root in it. */
  lemma RemoveNothing(x: string)
    requires '/' !in x && x != ""
    ensures Remove("/" + x, "/s/") == "/" + x
  {
    var p := "/" + x;
    assert p[1..] == x && p[0] == '/';
    if |p| >= 3 {
      assert p[2] == x[1];
    }
    NothingToRemove(x, "/s/");
  }

  /** What the source directories are listed as. */
  lemma SourceNames(k: Disk, excludes: seq<string>)
    ensures var w := On(k, excludes);
      && SrcName(w, "/s") == Some("/s") && SrcName(w, "/s/a") == Some("a") && SrcName(w, "/s/b") == Some("b")
      && SrcName(w, "/s//a") == Some("/a")
  {
    FindSource(k, excludes, "/s");
    FindSource(k, excludes, "/s/a");
    FindSource(k, excludes, "/s/b");
    FindSource(k, excludes, "/s//a");
    RemovedNames();
  }

  lemma RemovedNames()
    ensures Remove("/s", "/s/") == "/s" && Remove("/s/a", "/s/") == "a" && Remove("/s/b", "/s/") == "b"
    ensures Remove("/s//a", "/s/") == "/a"
  {
    RemoveNothing("s");
    RemoveFront("/s/", "a");
    RemoveFront("/s/", "b");
    RemoveNothing("a");
    assert "/" + "s" == "/s" && "/" + "a" == "/a" && "/s/" + "a" == "/s/a" && "/s/" + "b" == "/s/b";
    assert "/s//a"[3..] == "/a";
  }

  /** A directory with another one behind it, and two names. */
  lemma TwoNames(k: Disk, excludes: seq<string>, d: string, r: string)
    requires k.behind(d) == r && d != r && d != "/" && r != "/"
    requires var w := On(k, excludes);
      SrcName(w, d).Some? && SrcName(w, r).Some? && SrcName(w, d) != SrcName(w, r)
    ensures Hides(On(k, excludes), "/", d) && Real(On(k, excludes), d) == Some(r)
  {}

  lemma LinkHides(k: Disk, excludes: seq<string>)
    requires Shaped(k)
    ensures Hides(On(k, excludes), "/", "/s/b") && Real(On(k, excludes), "/s/b") == Some("/s/a")
  {
    SourceNames(k, excludes);
    KnownCanonical("/s/b");
    TwoNames(k, excludes, "/s/b", "/s/a");
  }

  // ---- its files ----------------------------------------------------------------------------------

  /** d is a directory with a file x in it. */
  predicate Holds(d: string, x: string, p: string) {
    && d in DIRS && p in FILES && p == d + "/" + x && Canonical(d) && Canonical(p) && Parent(p) == d
    && d != "/" && Proper(x) && |x| == 1
  }

  lemma XHeld()
    ensures Holds("/s", "x", "/s/x") && Holds("/s/a", "x", "/s/a/x") && Holds("/s/b", "x", "/s/b/x")
  {
    XHeldIn("/s", "/s/x");
    XHeldIn("/s/a", "/s/a/x");
    XHeldIn("/s/b", "/s/b/x");
  }

  lemma XHeldIn(d: string, p: string)
    requires (d == "/s" && p == "/s/x") || (d == "/s/a" && p == "/s/a/x") || (d == "/s/b" && p == "/s/b/x")
    ensures Holds(d, "x", p)
  {
    KnownCanonical(d);
    var x := "x";
    assert p == d + "/" + x;
    PathBelow(d, x);
  }

  lemma CountedHere(w: World, d: string, x: string, p: string)
    requires |x| == 1 && x[0] != '/' && p == d + "/" + x && w.present(p) && !w.isDir(p) && !Excluded(x, w.excludes)
    ensures Counted(w, d, x) && Spelled(d, x) == p
  {}

  lemma HeldCounted(k: Disk, excludes: seq<string>, d: string, x: string, p: string)
    requires Shaped(k) && Holds(d, x, p) && !Excluded(x, excludes)
    ensures Counted(On(k, excludes), d, x) && Spelled(d, x) == p
  {
    Known(k, excludes, p);
    CountedHere(On(k, excludes), d, x, p);
  }

  lemma HeldReadable(k: Disk, excludes: seq<string>, d: string, x: string, p: string)
    requires Shaped(k) && Holds(d, x, p) && !Excluded(p, excludes)
    ensures Readable(On(k, excludes), p)
  {
    Known(k, excludes, p);
  }

  lemma HeldGives(k: Disk, excludes: seq<string>, d: string, x: string, p: string)
    requires Shaped(k) && Holds(d, x, p) && SrcName(On(k, excludes), d).Some? && !Excluded(x, excludes)
    ensures Gives(On(k, excludes), "/", d, x) && Entry(On(k, excludes), d, x) == SrcName(On(k, excludes), d)
  {
    Known(k, excludes, d);
    HeldCounted(k, excludes, d, x, p);
    SourceFirst(k, excludes, d);
  }

  lemma SourceFirst(k: Disk, excludes: seq<string>, d: string)
    requires SrcName(On(k, excludes), d).Some?
    ensures Contribution(On(k, excludes), d).0 == SrcName(On(k, excludes), d)
  {}

  lemma NoExcludes(p: string)
    ensures !Excluded(p, [])
  {}

  /** With the file of the link excluded, nothing is hidden from absolute names. */
  const NOT_IN_LINK := ["/s/b/x"]

  lemma NotExcluded(p: string)
    requires |p| < 6 || p[3] != 'b' || p[5] != 'x'
    ensures !Excluded(p, NOT_IN_LINK)
  {}

  lemma OnlyInLink(p: string)
    requires p in FILES && (Parent(p) == "/s/b" || Parent(p) == "/s/b/e")
    ensures Excluded(p, NOT_IN_LINK)
  {
    Parents();
    assert ParentIs(p, Parent(p));
    assert p == "/s/b/x";
    assert "/s/b/x" in NOT_IN_LINK;
  }

  lemma OnlyLink(k: Disk, excludes: seq<string>, d: string)
    requires Shaped(k) && Canonical(d) && Real(On(k, excludes), d).Some?
    ensures d == "/s/b" || d == "/s/b/e"
  {}

  lemma LinkExcluded(k: Disk)
    requires Shaped(k)
    ensures NothingHidden(On(k, NOT_IN_LINK), "/")
  {
    var w := On(k, NOT_IN_LINK);
    DiskSetting(k, NOT_IN_LINK);
    forall p, q ensures !HiddenPair(w, "/", p, q) {
      if Readable(w, p) && Real(w, Parent(p)).Some? {
        ReadableParent(w, p);
        OnlyLink(k, NOT_IN_LINK, Parent(p));
        OnlyInLink(p);
      }
    }
  }

  // ---- each family shows --------------------------------------------------------------------------

  /** The file in the link and the one behind it, by their absolute names. */
  lemma LinkShows()
    ensures exists k :: Shaped(k) && LinkShowsOn(k)
  {
    DiskShaped();
    LinkShowsAny(TheDisk());
  }

  ghost predicate LinkShowsOn(k: Disk) {
    var w := On(k, []);
    && Setting(w, "/") && HiddenPair(w, "/", "/s/b/x", "/s/a/x")
    && !SameDeps(w, "/", Exhibit("/", "/s/b/x", "/s/a/x"))
  }

  lemma LinkShowsAny(k: Disk)
    requires Shaped(k)
    ensures LinkShowsOn(k)
  {
    var w := On(k, []);
    DiskSetting(k, []);
    LinkHides(k, []);
    XHeld();
    NoExcludes("/s/b/x");
    NoExcludes("/s/a/x");
    HeldReadable(k, [], "/s/b", "x", "/s/b/x");
    HeldReadable(k, [], "/s/a", "x", "/s/a/x");
    HiddenPairShows(w, "/", "/", Absolute, "/s/b/x", "/s/a/x");
  }

  /** And where nothing is hidden from absolute names: each family by itself. */
  ghost predicate AllShowOn(k: Disk) {
    var w := On(k, NOT_IN_LINK);
    && Setting(w, "/") && NothingHidden(w, "/")
    && !SameDeps(w, "/", TwoDirs("/", "/s", "/s/a", "x"))
    && !SameDeps(w, "/", ReadsDirectory("/", "/s/x", "/s/a", "x"))
    && !SameDeps(w, "/", Inside("/", "/s/b", "x", "/s/a/x"))
    && !SameDeps(w, "/", Exhibit("/", "/s//a/x", "/s/a/x"))
    && !SameDeps(w, "/", TwoHomes("/s/a", "/", "/s/a/x"))
    && !SameDepsAll(w, "/", TwoFiles("/s/a", "/", "/s/a/x"))
    && !SameDeps(w, "/", Opening("/") + [Exec(1, "/s/b/e"), Read(1, "/s/a/x")])
    && !SameDeps(w, "/", Inside("/", "/s/b", "./y", "/s/a/x"))
  }

  /** The name x used in the source root and in a; directory a read after the file beside it, and then the name x,
      which is not in the root; the excluded file in the link read from inside; the file in a read by a name with a
      doubled slash and by its own; a file of the directory that was home before, in one meta file and in two;
      directory e of the link executed; and the name ./y, which is that of no file, used in the link. */
  lemma OthersShow()
    ensures exists k :: Shaped(k) && AllShowOn(k)
  {
    DiskShaped();
    var k := TheDisk();
    DiskSetting(k, NOT_IN_LINK);
    LinkExcluded(k);
    RelativeNameShows(k);
    DirectoryShows(k);
    ExcludedNameShows(k);
    SpellingShows(k);
    EarlierHomeShows(k);
    RunDirectoryShows(k);
    MissingNameShows(k);
    assert AllShowOn(k);
  }

  lemma RelativeNameShows(k: Disk)
    requires Shaped(k)
    ensures !SameDeps(On(k, NOT_IN_LINK), "/", TwoDirs("/", "/s", "/s/a", "x"))
  {
    DiskSetting(k, NOT_IN_LINK);
    XHeld();
    SourceNames(k, NOT_IN_LINK);
    NotExcluded("x");
    HeldGives(k, NOT_IN_LINK, "/s", "x", "/s/x");
    HeldGives(k, NOT_IN_LINK, "/s/a", "x", "/s/a/x");
    RelativeNameHides(On(k, NOT_IN_LINK), "/", "/", "/s", "/s/a", "x");
  }

  /** Two source directories of different names. */
  predicate Different(w: World, d: string, e: string) {
    SrcName(w, d).Some? && SrcName(w, e).Some? && SrcName(w, d) != SrcName(w, e)
  }

  lemma RootAndA(k: Disk)
    ensures Different(On(k, NOT_IN_LINK), "/s", "/s/a")
  {
    SourceNames(k, NOT_IN_LINK);
  }

  lemma Stray(k: Disk, d: string, x: string, p: string, e: string, q: string)
    requires Shaped(k) && Holds(d, x, p) && Holds(e, x, q) && ParentIs(e, d) && |e| < 7 && NotInRoot(k, x)
    requires OutOfLink(p) && OutOfLink(e) && OutOfLink(x) && Different(On(k, NOT_IN_LINK), d, e)
    ensures !SameDeps(On(k, NOT_IN_LINK), "/", ReadsDirectory("/", p, e, x))
  {
    var excludes := NOT_IN_LINK;
    DiskSetting(k, excludes);
    HeldReadable(k, excludes, d, x, p);
    Known(k, excludes, e);
    HeldGives(k, excludes, e, x, q);
    SourceFirst(k, excludes, d);
    SourceFirst(k, excludes, e);
    ReadDirectoryHides(On(k, excludes), "/", "/", p, e, x);
  }

  /** Nothing called x is in the root. */
  predicate NotInRoot(k: Disk, x: string) { !k.file("/" + "/" + x) && !k.dir("/" + "/" + x) }

  lemma XNotInRoot(k: Disk)
    requires DoubledOn(k)
    ensures NotInRoot(k, "x")
  {
    assert "/" + "/" + "x" == "//x";
  }

  predicate OutOfLink(p: string) { !Excluded(p, NOT_IN_LINK) }

  lemma XOutOfLink()
    ensures OutOfLink("x") && OutOfLink("/s/x") && OutOfLink("/s/a") && OutOfLink("/s/a/x") && OutOfLink("/s//a/x")
    ensures OutOfLink("/s/b/e") && OutOfLink("./y")
  {
    NotExcluded("./y");
    NotExcluded("/s/b/e");
    NotExcluded("x");
    NotExcluded("/s/x");
    NotExcluded("/s/a");
    NotExcluded("/s/a/x");
    NotExcluded("/s//a/x");
  }

  lemma DirectoryShows(k: Disk)
    requires Shaped(k)
    ensures !SameDeps(On(k, NOT_IN_LINK), "/", ReadsDirectory("/", "/s/x", "/s/a", "x"))
  {
    Parents();
    XHeld();
    RootAndA(k);
    XNotInRoot(k);
    XOutOfLink();
    Stray(k, "/s", "x", "/s/x", "/s/a", "/s/a/x");
  }

  lemma ThenReal(k: Disk, excludes: seq<string>, d: string, x: string, p: string, e: string, q: string)
    requires Shaped(k) && Holds(d, x, p) && Holds(e, x, q) && !Excluded(x, excludes) && !Excluded(q, excludes)
    requires Hides(On(k, excludes), "/", d) && Real(On(k, excludes), d) == Some(e)
    ensures LinkThenReal(On(k, excludes), "/", d, x, q)
  {
    HeldCounted(k, excludes, d, x, p);
    HeldReadable(k, excludes, e, x, q);
  }

  lemma ExcludedNameShows(k: Disk)
    requires Shaped(k)
    ensures !SameDeps(On(k, NOT_IN_LINK), "/", Inside("/", "/s/b", "x", "/s/a/x"))
  {
    DiskSetting(k, NOT_IN_LINK);
    LinkHides(k, NOT_IN_LINK);
    XHeld();
    Known(k, NOT_IN_LINK, "/s/b");
    NotExcluded("x");
    NotExcluded("/s/a/x");
    ThenReal(k, NOT_IN_LINK, "/s/b", "x", "/s/b/x", "/s/a", "/s/a/x");
    ExcludedNameHides(On(k, NOT_IN_LINK), "/", "/", "/s/b", "x", "/s/a/x");
  }

  lemma UndottedKept(p: string)
    requires '.' !in p && "/" <= p
    ensures !NeedsCleaning(p) && !EndsWith(p, "/.") && !EndsWith(p, ".dirdep")
  {
    NeedsCleaningExactly(p);
    assert p[0..] == p && OccursAt(p, "/", 0);
    forall k ensures !OccursAt(p, "./", k) {
      if 0 <= k < |p| {
        assert p[k..][0] == p[k];
      }
    }
    forall k ensures !OccursAt(p, "/../", k) {
      if 0 <= k < |p| - 1 {
        assert p[k..][1] == p[k + 1];
      }
    }
    UndottedEnd(p, "/..", 1);
    UndottedEnd(p, "/.", 1);
    UndottedEnd(p, ".dirdep", 0);
  }

  lemma UndottedEnd(p: string, t: string, i: nat)
    requires '.' !in p && i < |t| && t[i] == '.'
    ensures !EndsWith(p, t)
  {
    if |t| <= |p| {
      assert p[|p| - |t|..][i] == p[|p| - |t| + i];
    }
  }

  /** Directory /s/a with its slash doubled is the same directory, and a source directory of another name. */
  lemma DoubledDirectory(k: Disk, excludes: seq<string>)
    requires Shaped(k)
    ensures var w := On(k, excludes); Real(w, "/s//a") == Some("/s/a") && Hides(w, "/", "/s//a")
  {
    SourceNames(k, excludes);
    TwoNames(k, excludes, "/s//a", "/s/a");
  }

  /** p is x in directory d, without a dot. */
  predicate Undotted(d: string, x: string, p: string) {
    p == d + "/" + x && '.' !in p && "/" <= p && '.' !in d && "/" <= d && d[|d| - 1] != '/'
  }

  lemma DoubledUndotted()
    ensures Undotted("/s//a", "x", "/s//a/x")
  {}

  /** p is a file in a directory d that is e by another spelling. */
  predicate SpeltFor(k: Disk, d: string, p: string, e: string) {
    var w := On(k, NOT_IN_LINK);
    w.present(p) && !w.isDir(p) && w.present(d) && Real(w, d) == Some(e) && Hides(w, "/", d) && k.behind(e) == e
  }

  lemma SpeltTwice(k: Disk, d: string, x: string, p: string, e: string, q: string)
    requires Shaped(k) && Holds(e, x, q) && OutOfLink(p) && OutOfLink(q) && Undotted(d, x, p) && SpeltFor(k, d, p, e)
    ensures !SameDeps(On(k, NOT_IN_LINK), "/", Exhibit("/", p, q))
  {
    DiskSetting(k, NOT_IN_LINK);
    assert x[0] != '/';
    SplitBelow(d, x);
    UndottedKept(p);
    UndottedKept(d);
    HeldReadable(k, NOT_IN_LINK, e, x, q);
    SpellingHides(On(k, NOT_IN_LINK), "/", "/", p, q);
  }

  lemma RealA(k: Disk)
    requires Shaped(k)
    ensures k.behind("/s/a") == "/s/a"
  {
    KnownCanonical("/s/a");
  }

  lemma DoubledSpelt(k: Disk)
    requires Shaped(k)
    ensures SpeltFor(k, "/s//a", "/s//a/x", "/s/a")
  {
    DoubledDirectory(k, NOT_IN_LINK);
    RealA(k);
  }

  lemma SpellingShows(k: Disk)
    requires Shaped(k)
    ensures !SameDeps(On(k, NOT_IN_LINK), "/", Exhibit("/", "/s//a/x", "/s/a/x"))
  {
    XHeld();
    XOutOfLink();
    DoubledUndotted();
    DoubledSpelt(k);
    SpeltTwice(k, "/s//a", "x", "/s//a/x", "/s/a", "/s/a/x");
  }

  lemma Former(k: Disk, excludes: seq<string>, d: string, x: string, p: string)
    requires Shaped(k) && Holds(d, x, p) && !Excluded(p, excludes) && SrcName(On(k, excludes), d).Some?
    ensures FormerHome(On(k, excludes), d, "/", p)
  {
    HeldReadable(k, excludes, d, x, p);
    SourceFirst(k, excludes, d);
  }

  lemma EarlierHomeShows(k: Disk)
    requires Shaped(k)
    ensures var w := On(k, NOT_IN_LINK);
      && !SameDeps(w, "/", TwoHomes("/s/a", "/", "/s/a/x")) && !SameDepsAll(w, "/", TwoFiles("/s/a", "/", "/s/a/x"))
  {
    DiskSetting(k, NOT_IN_LINK);
    XHeld();
    SourceNames(k, NOT_IN_LINK);
    NotExcluded("/s/a/x");
    Former(k, NOT_IN_LINK, "/s/a", "x", "/s/a/x");
    EarlierHomeHides(On(k, NOT_IN_LINK), "/", "/s/a", "/", "/s/a/x");
    EarlierFileHides(On(k, NOT_IN_LINK), "/", "/s/a", "/", "/s/a/x");
  }

  /** A directory e of the link, and a file behind the link. */
  lemma RunInLink(k: Disk, d: string, p: string, e: string, x: string, q: string)
    requires Shaped(k) && IsCanonical(p) && p in DIRS && p != "/" && |p| == 6 && ParentIs(p, d) && OutOfLink(p)
    requires Holds(e, x, q) && OutOfLink(q) && d != "/"
    requires Hides(On(k, NOT_IN_LINK), "/", d) && Real(On(k, NOT_IN_LINK), d) == Some(e)
    ensures !SameDeps(On(k, NOT_IN_LINK), "/", Opening("/") + [Exec(1, p), Read(1, q)])
  {
    DiskSetting(k, NOT_IN_LINK);
    HeldReadable(k, NOT_IN_LINK, e, x, q);
    Known(k, NOT_IN_LINK, p);
    assert !EndsWith(p, ".dirdep");
    RunDirectoryHides(On(k, NOT_IN_LINK), "/", "/", p, q);
  }

  lemma RunDirectoryShows(k: Disk)
    requires Shaped(k)
    ensures !SameDeps(On(k, NOT_IN_LINK), "/", Opening("/") + [Exec(1, "/s/b/e"), Read(1, "/s/a/x")])
  {
    LinkHides(k, NOT_IN_LINK);
    Parents();
    Canonicals();
    XHeld();
    XOutOfLink();
    RunInLink(k, "/s/b", "/s/b/e", "/s/a", "x", "/s/a/x");
  }

  /** Name x, used in directory d, is p, which is not there. */
  predicate NotThere(d: string, x: string, p: string) {
    && "./" <= x && Spelled(d, x) == p && Canonical(p) && Parent(p) == d && p !in DIRS && p !in FILES
    && Canonical(d) && d in DIRS && d != "/" && |x| == 3
  }

  lemma YNotThere()
    ensures NotThere("/s/b", "./y", "/s/b/y")
  {
    LowerDirCanonical("/s/b");
    assert "./y"[1..] == "/y" && "/s/b" + "/y" == "/s/b/y" && "/s/b" + "/" + "y" == "/s/b/y";
    PathBelow("/s/b", "y");
  }

  lemma MissingInLink(k: Disk, d: string, x: string, p: string, e: string, z: string, q: string)
    requires Shaped(k) && NotThere(d, x, p) && OutOfLink(x) && Holds(e, z, q) && OutOfLink(q)
    requires Hides(On(k, NOT_IN_LINK), "/", d) && Real(On(k, NOT_IN_LINK), d) == Some(e)
    ensures !SameDeps(On(k, NOT_IN_LINK), "/", Inside("/", d, x, q))
  {
    DiskSetting(k, NOT_IN_LINK);
    HeldReadable(k, NOT_IN_LINK, e, z, q);
    Known(k, NOT_IN_LINK, d);
    MissingNameHides(On(k, NOT_IN_LINK), "/", "/", d, x, q);
  }

  lemma MissingNameShows(k: Disk)
    requires Shaped(k)
    ensures !SameDeps(On(k, NOT_IN_LINK), "/", Inside("/", "/s/b", "./y", "/s/a/x"))
  {
    LinkHides(k, NOT_IN_LINK);
    XHeld();
    XOutOfLink();
    YNotThere();
    MissingInLink(k, "/s/b", "./y", "/s/b/y", "/s/a", "x", "/s/a/x");
  }
}
