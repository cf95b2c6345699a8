/** What meta2deps.py's one `last_dir` is for each process. */
module MetaLastDir {
  import opened Wrappers
  import opened PyStrings
  import opened CleanPath
  import opened MetaSpec
  import opened MetaProcess
  import opened MetaCache

  /** The plain model: the last_dir a process left behind at its last record, or the home directory. */
  function OwnLast(w: World, m: Meta, t: seq<Record>, cached: bool, pid: int): string
    decreases |t|
  {
    if t == [] then m.cwd
    else
      var p, r := t[..|t| - 1], t[|t| - 1];
      if !HasVersion(p) then if r.Cwd? then r.dir else OwnLast(w, m, p, cached, pid)
      else if r.HasPid() && r.pid == pid then Run(w, m, t, cached).m.lastDir
      else OwnLast(w, m, p, cached, pid)
  }

  /** No record of process 0, which stands for no process yet, and no fork. */
  predicate ForkFree(t: seq<Record>) {
    forall k :: 0 <= k < |t| && t[k].HasPid() ==> t[k].pid != 0 && !t[k].Fork?
  }

  /** The last_dir with which a record of process pid is processed in state s. */
  function LastFor(s: Loop, pid: int): string { Switch(s, pid).m.lastDir }

  lemma GetPut(m: map<int, string>, k: int, v: string, pid: int, d: string)
    ensures Get(m[k := v], pid, d) == if pid == k then v else Get(m, pid, d)
  {}

  lemma SwitchedTo(s: Loop, pid: int)
    requires s.lastPid != 0
    ensures LastFor(s, pid) == if pid == s.lastPid then s.m.lastDir else Get(s.pidLastDir, pid, s.m.cwd)
  {
    GetPut(s.pidLastDir, s.lastPid, s.m.lastDir, pid, s.m.cwd);
  }

  /** What is put aside at a switch to process q. */
  lemma PutAside(s: Loop, q: int, pid: int)
    requires q != 0 && pid != 0 && pid != q
    ensures Get(Switch(s, q).pidLastDir, pid, s.m.cwd) == LastFor(s, pid)
  {
    if s.lastPid != 0 {
      SwitchedTo(s, pid);
      GetPut(s.pidLastDir, s.lastPid, s.m.lastDir, pid, s.m.cwd);
    }
  }

  /** After a record of process q that leaves last_dir at last, and perhaps puts something aside for q. */
  lemma SwitchBack(s: Loop, q: int, n: Loop, pid: int)
    requires q != 0 && pid != 0 && n.lastPid == q && n.m.cwd == s.m.cwd
    requires var s1 := Switch(s, q); n.pidLastDir == s1.pidLastDir || n.pidLastDir == s1.pidLastDir[q := n.m.lastDir]
    ensures LastFor(n, pid) == if pid == q then n.m.lastDir else LastFor(s, pid)
  {
    SwitchedTo(n, pid);
    if pid != q {
      PutAside(s, q, pid);
      GetPut(Switch(s, q).pidLastDir, q, n.m.lastDir, pid, s.m.cwd);
    }
  }

  /** A record of one process leaves the last_dir of every other process alone. */
  lemma OthersKeep(w: World, s: Loop, r: Record, cached: bool, pid: int)
    requires !s.skip && !s.failed && r.HasPid() && !r.Fork? && r.pid != 0 && pid != 0
    ensures var n := Step(w, s, r, cached);
      LastFor(n, pid) == if pid == r.pid then n.m.lastDir else LastFor(s, pid)
  {
    var s1, n := Switch(s, r.pid), Step(w, s, r, cached);
    if r.IsFileOp() {
      FileOpFrame(w, s1, r, cached);
      assert n == FileOp(w, s1, r, cached);
    }
    SwitchBack(s, r.pid, n, pid);
  }

  lemma HeaderLast(w: World, s: Loop, r: Record, cached: bool, pid: int)
    requires s.skip && !s.failed && s.lastPid == 0 && s.pidLastDir == map[] && s.m.lastDir == s.m.cwd
    ensures var n := Step(w, s, r, cached);
      && n.lastPid == 0 && n.pidLastDir == map[] && n.m.lastDir == n.m.cwd && !n.failed
      && LastFor(n, pid) == if r.Cwd? then r.dir else LastFor(s, pid)
  {}

  lemma OtherRecords(w: World, s: Loop, r: Record, cached: bool, pid: int)
    requires !s.skip && !s.failed && !r.HasPid()
    ensures LastFor(Step(w, s, r, cached), pid) == LastFor(s, pid)
  {}

  lemma {:induction false} HeaderRun(w: World, m: Meta, t: seq<Record>, cached: bool)
    requires !HasVersion(t)
    ensures var s := Run(w, m, t, cached);
      s.skip && !s.failed && s.lastPid == 0 && s.pidLastDir == map[] && s.m.lastDir == s.m.cwd
    decreases |t|
  {
    if t != [] {
      HasVersionSnoc(t);
      HeaderRun(w, m, t[..|t| - 1], cached);
      HeaderLast(w, Run(w, m, t[..|t| - 1], cached), t[|t| - 1], cached, 0);
    }
  }

  /** For every trace without forks: the one last_dir a record is processed with is the one its own process left
      behind. */
  lemma {:induction false} LastDirRefines(w: World, m: Meta, t: seq<Record>, cached: bool, pid: int)
    requires ForkFree(t) && pid != 0 && !Run(w, m, t, cached).failed
    ensures LastFor(Run(w, m, t, cached), pid) == OwnLast(w, m, t, cached, pid)
    decreases |t|
  {
    if t != [] {
      var p, r := t[..|t| - 1], t[|t| - 1];
      var s := Run(w, m, p, cached);
      StepFlags(w, s, r, cached);
      assert forall k :: 0 <= k < |p| ==> p[k] == t[k];
      LastDirRefines(w, m, p, cached, pid);
      RunControl(w, m, p, cached);
      ControlRefines(Chdirs(w), m.cwd, p);
      if !HasVersion(p) {
        HeaderRun(w, m, p, cached);
        HeaderLast(w, s, r, cached, pid);
      } else if r.HasPid() {
        OthersKeep(w, s, r, cached, pid);
      } else {
        OtherRecords(w, s, r, cached, pid);
      }
    }
  }

  /** A fork hands the last_dir of the parent to the child, whatever is put aside for the child; and the parent goes on
      with what was last put aside for it, be that its own or not. */
  lemma ForkExactly(w: World, s: Loop, parent: int, child: int, cached: bool)
    requires !s.skip && !s.failed && child != 0 && parent != child
    ensures var n := Step(w, s, Fork(parent, child), cached);
      && LastFor(n, child) == LastFor(s, parent)
      && LastFor(n, parent) == Get(Switch(s, parent).pidLastDir, parent, s.m.cwd)
      && (parent != s.lastPid ==> LastFor(n, parent) == LastFor(s, parent))
  {}

  /** Here the parent's is lost: it had moved since it was put aside. */
  lemma ForkForgets(w: World, s: Loop, parent: int, child: int, cached: bool)
    requires !s.skip && !s.failed && child != 0 && parent != child && s.lastPid == parent
    ensures LastFor(Step(w, s, Fork(parent, child), cached), parent) == LastFor(s, parent) <==>
      Get(s.pidLastDir, parent, s.m.cwd) == s.m.lastDir
  {
    ForkExactly(w, s, parent, child, cached);
  }

  /** Reading a directory, or making a link there, moves last_dir to it, unless it is where the parser or the process is
      already or its parent was seen; and does nothing else. */
  lemma DirectoryMovesExactly(w: World, m: Meta, cwd: string, e: string, op: Op, input: string, cached: bool)
    requires Lawful(w) && op != ExecOp && Canonical(e) && Parent(e) != "/" && w.isDir(e)
    requires !EndsWith(e, ".dirdep") && !Excluded(e, w.excludes)
    ensures ParsePath(w, m, cwd, e, op, input, cached) ==
      if e == m.lastDir || e == cwd || e == m.cwd || Some(e) == w.curdir || (cached && Parent(e) in m.seen) then m
      else m.(lastDir := e)
  {
    assert PathLaws(w, e);
    RootParts();
    CanonicalSplit(e);
    ParentIsDir(w, e);
    CanonicalResolves(w, e, cwd, Some(m.lastDir));
    CanonicalResolves(w, Parent(e), cwd, Some(m.lastDir));
    DirNamesOf(w, m, cwd, Parent(e));
  }

  lemma DirNamesOf(w: World, m: Meta, cwd: string, d: string)
    requires AbsPath(w, d, cwd, Some(m.lastDir)) == Some(d) && d != ""
    ensures DirNames(w, m, cwd, d).0 == d
  {}
}
