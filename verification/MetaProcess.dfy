/** What meta2deps.py's `parse` knows about processes: the one cached `cwd` is every process's own
    directory, `pids` is who is still running, and when a parse ends normally. */
module MetaProcess {
  import opened Wrappers
  import opened PyStrings
  import opened MetaSpec

  /** The records after the first V are the trace proper. */
  predicate HasVersion(t: seq<Record>) { exists k :: 0 <= k < |t| && t[k].Version? }

  /** chdir in world w, as a function of the old directory and the argument. */
  function Chdirs(w: World): (string, string) -> string { (cwd, dir) => ChdirTo(w, cwd, dir) }

  /** The plain model: a fork gives the child its parent's directory, a chdir moves its own process, and
      a process nobody has told about starts where the CWD record said. */
  function CwdOf(chdir: (string, string) -> string, home: string, t: seq<Record>, pid: int): string
    decreases |t|
  {
    if t == [] then home
    else
      var p, r := t[..|t| - 1], t[|t| - 1];
      if !HasVersion(p) then if r.Cwd? then r.dir else CwdOf(chdir, home, p, pid)
      else if r.Fork? && r.child == pid then CwdOf(chdir, home, p, r.pid)
      else if r.Chdir? && r.pid == pid then chdir(CwdOf(chdir, home, p, pid), r.dir)
      else CwdOf(chdir, home, p, pid)
  }

  // ---- frames -------------------------------------------------------------------------------

  lemma {:induction false} IsSrcFrame(w: World, m: Meta, base: string, dirs: seq<string>)
    ensures var n := IsSrc(w, m, base, dirs).1;
            n == m.(seen := n.seen, srcDeps := n.srcDeps) && m.seen <= n.seen
    decreases |dirs|
  {
    if dirs != [] { IsSrcFrame(w, m, base, dirs[1..]); }
  }

  /** parse_path can change what was seen, what depends, and the last directory: nothing else. */
  lemma ParsePathFrame(w: World, m: Meta, cwd: string, path: string, op: Op, input: string, cached: bool)
    ensures var n := ParsePath(w, m, cwd, path, op, input, cached);
            n.pids == m.pids && n.cwd == m.cwd && m.seen <= n.seen
  {
    var p := Resolve(w, path, cwd, Some(m.lastDir));
    if p.Some? {
      var (raw, base) := SplitPath(p.value);
      var (dir, rdir) := DirNames(w, m, cwd, raw);
      IsSrcFrame(w, m, base, BothNames(dir, rdir));
    }
  }

  lemma FileOpFrame(w: World, s: Loop, r: Record, cached: bool)
    requires r.IsFileOp()
    ensures var n := FileOp(w, s, r, cached);
            && n == s.(m := n.m) && n.m.cwd == s.m.cwd && s.m.seen <= n.m.seen
            && n.m.pids == if r.Exec? && !(cached && r.path in s.m.seen) then s.m.pids[r.pid := r.path] else s.m.pids
  {
    match r
    case Exec(pid, path) =>
      ParsePathFrame(w, s.m.(pids := s.m.pids[pid := path]), s.cwd, path, ExecOp, path, cached);
    case Read(_, path) =>
      ParsePathFrame(w, s.m, s.cwd, path, ReadOp, path, cached);
    case Link(_, path, target) =>
      ParsePathFrame(w, s.m, s.cwd, Strip(path, '\''), ReadOp, path, cached);
      var m1 := ParsePath(w, s.m, s.cwd, Strip(path, '\''), ReadOp, path, cached);
      ParsePathFrame(w, m1, s.cwd, Strip(target, '\''), WriteOp, path, cached);
  }

  lemma HasVersionSnoc(t: seq<Record>)
    requires t != []
    ensures HasVersion(t) <==> HasVersion(t[..|t| - 1]) || t[|t| - 1].Version?
  {
    var p := t[..|t| - 1];
    if HasVersion(p) {
      var k :| 0 <= k < |p| && p[k].Version?;
      assert t[k].Version?;
    }
    if HasVersion(t) {
      var k :| 0 <= k < |t| && t[k].Version?;
      if k < |p| { assert p[k].Version?; }
    }
  }

  // ---- the control state --------------------------------------------------------------------

  /** The part of the loop state that no dependency touches. */
  datatype Control = Control(
    skip: bool, failed: bool, version: int, bye: bool,
    cwd: string, home: string, lastPid: int, pidCwd: map<int, string>)

  function ControlOf(s: Loop): Control {
    Control(s.skip, s.failed, s.version, s.bye, s.cwd, s.m.cwd, s.lastPid, s.pidCwd)
  }

  /** The cwd in force for a record of process pid. */
  function CwdFor(c: Control, pid: int): string {
    if pid == c.lastPid then c.cwd else Get(c.pidCwd, pid, c.home)
  }

  /** A record that belongs before the first V: after it, reading it raises. */
  predicate IsHeader(r: Record) { r.Version? || r.Cwd? || r.Cmd? }

  function Move(chdir: (string, string) -> string, c: Control, r: Record): Control {
    if c.failed then c
    else if c.skip then
      if r.Version? then c.(skip := false, version := r.n)
      else if r.Cwd? then c.(cwd := r.dir, home := r.dir)
      else c
    else if IsHeader(r) then c.(failed := true)
    else if r.Comment? then c.(bye := c.bye || r.bye)
    else if r.Other? then c
    else
      var d := CwdFor(c, r.pid);
      if r.Fork? then c.(cwd := d, pidCwd := c.pidCwd[r.child := d], lastPid := r.child)
      else if r.Chdir? then
        var e := chdir(d, r.dir);
        c.(cwd := e, pidCwd := c.pidCwd[r.pid := e], lastPid := r.pid)
      else c.(cwd := d, lastPid := r.pid)
  }

  lemma HeaderControl(w: World, s: Loop, r: Record, cached: bool)
    requires s.failed || s.skip || !r.HasPid()
    ensures ControlOf(Step(w, s, r, cached)) == Move(Chdirs(w), ControlOf(s), r)
  {}

  lemma ProcessControl(w: World, s: Loop, r: Record, cached: bool)
    requires !s.failed && !s.skip && (r.Fork? || r.Chdir? || r.Exit?)
    ensures ControlOf(Step(w, s, r, cached)) == Move(Chdirs(w), ControlOf(s), r)
  {
    SwitchControl(s, r.pid);
  }

  lemma FileControl(w: World, s: Loop, r: Record, cached: bool)
    requires !s.failed && !s.skip && r.IsFileOp()
    ensures ControlOf(Step(w, s, r, cached)) == Move(Chdirs(w), ControlOf(s), r)
  {
    SwitchControl(s, r.pid);
    FileOpFrame(w, Switch(s, r.pid), r, cached);
    assert Step(w, s, r, cached) == FileOp(w, Switch(s, r.pid), r, cached);
  }

  /** Control moves by itself: neither the cache nor any dependency work influences it. */
  lemma StepControl(w: World, s: Loop, r: Record, cached: bool)
    ensures ControlOf(Step(w, s, r, cached)) == Move(Chdirs(w), ControlOf(s), r)
  {
    if s.failed || s.skip || !r.HasPid() {
      HeaderControl(w, s, r, cached);
    } else if r.IsFileOp() {
      FileControl(w, s, r, cached);
    } else {
      ProcessControl(w, s, r, cached);
    }
  }

  lemma SwitchControl(s: Loop, pid: int)
    ensures ControlOf(Switch(s, pid)) == ControlOf(s).(cwd := CwdFor(ControlOf(s), pid), lastPid := pid)
  {}

  function Controls(chdir: (string, string) -> string, start: string, t: seq<Record>): Control
    decreases |t|
  {
    if t == [] then Control(true, false, 0, false, start, start, 0, map[])
    else Move(chdir, Controls(chdir, start, t[..|t| - 1]), t[|t| - 1])
  }

  lemma {:induction false} RunControl(w: World, m: Meta, t: seq<Record>, cached: bool)
    ensures ControlOf(Run(w, m, t, cached)) == Controls(Chdirs(w), m.cwd, t)
    decreases |t|
  {
    if t != [] {
      RunControl(w, m, t[..|t| - 1], cached);
      StepControl(w, Run(w, m, t[..|t| - 1], cached), t[|t| - 1], cached);
    }
  }

  // ---- the working directory ----------------------------------------------------------------

  /** One record keeps the cached cwd and the map of directories in step with each other. */
  lemma MoveCwd(chdir: (string, string) -> string, c: Control, r: Record, pid: int)
    requires Get(c.pidCwd, c.lastPid, c.home) == c.cwd && (c.skip ==> c.pidCwd == map[])
    requires !Move(chdir, c, r).failed
    ensures var n := Move(chdir, c, r);
      && Get(n.pidCwd, n.lastPid, n.home) == n.cwd && (n.skip ==> n.pidCwd == map[])
      && CwdFor(n, pid) ==
           if c.skip then if r.Cwd? then r.dir else CwdFor(c, pid)
           else if r.Fork? && r.child == pid then CwdFor(c, r.pid)
           else if r.Chdir? && r.pid == pid then chdir(CwdFor(c, pid), r.dir)
           else CwdFor(c, pid)
  {}

  lemma {:induction false} ControlRefines(chdir: (string, string) -> string, start: string, t: seq<Record>)
    ensures var c := Controls(chdir, start, t);
      !c.failed ==>
        && (c.skip <==> !HasVersion(t))
        && (forall pid :: CwdFor(c, pid) == CwdOf(chdir, start, t, pid))
        && Get(c.pidCwd, c.lastPid, c.home) == c.cwd
        && (c.skip ==> c.pidCwd == map[])
    decreases |t|
  {
    if t != [] && !Controls(chdir, start, t).failed {
      var p, r := t[..|t| - 1], t[|t| - 1];
      var c := Controls(chdir, start, p);
      ControlRefines(chdir, start, p);
      HasVersionSnoc(t);
      MoveCwd(chdir, c, r, 0);
      forall pid ensures CwdFor(Controls(chdir, start, t), pid) == CwdOf(chdir, start, t, pid) {
        MoveCwd(chdir, c, r, pid);
      }
    }
  }

  /** For every trace, with and without the cache, and whatever the pids: the single cached `cwd` that a
      record is processed with is the directory the plain model gives its process. */
  lemma CwdRefines(w: World, m: Meta, t: seq<Record>, cached: bool, pid: int)
    requires !Run(w, m, t, cached).failed
    ensures Switch(Run(w, m, t, cached), pid).cwd == CwdOf(Chdirs(w), m.cwd, t, pid)
  {
    RunControl(w, m, t, cached);
    ControlRefines(Chdirs(w), m.cwd, t);
  }

  // ---- the running processes ----------------------------------------------------------------

  /** Record i is an exec the parser entered into `pids`: past the V record and not already seen. */
  predicate Recorded(w: World, m: Meta, t: seq<Record>, cached: bool, i: nat)
    requires i < |t|
  {
    var s := Run(w, m, t[..i], cached);
    t[i].Exec? && !s.skip && !(cached && t[i].path in s.m.seen)
  }

  function RecordedAll(w: World, m: Meta, t: seq<Record>, cached: bool): seq<bool> {
    seq(|t|, i requires 0 <= i < |t| => Recorded(w, m, t, cached, i))
  }

  /** Record i is the last recorded exec of its process, and the process has not exited since. */
  predicate LiveAt(t: seq<Record>, recorded: seq<bool>, i: nat, pid: int)
    requires |recorded| == |t|
  {
    && i < |t| && recorded[i] && t[i].Exec? && t[i].pid == pid
    && forall j :: i < j < |t| ==> !(t[j].Exit? && t[j].pid == pid) && !(recorded[j] && t[j].Exec? && t[j].pid == pid)
  }

  function PidsAfter(pids: map<int, string>, r: Record, recorded: bool): map<int, string> {
    if r.Exec? && recorded then pids[r.pid := r.path]
    else if r.Exit? then pids - {r.pid}
    else pids
  }

  function PidsOf(t: seq<Record>, recorded: seq<bool>): map<int, string>
    requires |recorded| == |t|
    decreases |t|
  {
    if t == [] then map[]
    else
      var n := |t| - 1;
      PidsAfter(PidsOf(t[..n], recorded[..n]), t[n], recorded[n])
  }

  lemma StepPids(w: World, s: Loop, r: Record, cached: bool)
    requires !Step(w, s, r, cached).failed && (s.skip ==> s.m.pids == map[])
    ensures Step(w, s, r, cached).m.pids
         == PidsAfter(s.m.pids, r, !s.skip && r.Exec? && !(cached && r.path in s.m.seen))
  {
    if r.IsFileOp() { FileOpFrame(w, Switch(s, r.pid), r, cached); }
  }

  lemma RecordedPrefix(w: World, m: Meta, t: seq<Record>, cached: bool)
    requires t != []
    ensures RecordedAll(w, m, t, cached)[..|t| - 1] == RecordedAll(w, m, t[..|t| - 1], cached)
  {
    var p := t[..|t| - 1];
    forall i | 0 <= i < |p| ensures Recorded(w, m, t, cached, i) == Recorded(w, m, p, cached, i) {
      assert p[..i] == t[..i];
    }
  }

  lemma StepFlags(w: World, s: Loop, r: Record, cached: bool)
    requires !Step(w, s, r, cached).failed
    ensures !s.failed && (Step(w, s, r, cached).skip ==> s.skip && !r.Version?)
  {
    StepControl(w, s, r, cached);
  }

  lemma LastPids(w: World, m: Meta, t: seq<Record>, cached: bool)
    requires t != [] && !Run(w, m, t, cached).failed
    requires var s := Run(w, m, t[..|t| - 1], cached); s.skip ==> s.m.pids == map[]
    ensures Run(w, m, t, cached).m.pids
         == PidsAfter(Run(w, m, t[..|t| - 1], cached).m.pids, t[|t| - 1], Recorded(w, m, t, cached, |t| - 1))
  {
    StepPids(w, Run(w, m, t[..|t| - 1], cached), t[|t| - 1], cached);
  }

  lemma {:induction false} RunPids(w: World, m: Meta, t: seq<Record>, cached: bool)
    requires m.pids == map[] && !Run(w, m, t, cached).failed
    ensures Run(w, m, t, cached).m.pids == PidsOf(t, RecordedAll(w, m, t, cached))
    ensures Run(w, m, t, cached).skip ==> Run(w, m, t, cached).m.pids == map[]
    decreases |t|
  {
    if t != [] {
      var last := |t| - 1;
      StepFlags(w, Run(w, m, t[..last], cached), t[last], cached);
      RunPids(w, m, t[..last], cached);
      LastPids(w, m, t, cached);
      RecordedPrefix(w, m, t, cached);
      assert RecordedAll(w, m, t, cached)[last] == Recorded(w, m, t, cached, last);
    }
  }

  lemma {:induction false} LiveFold(t: seq<Record>, recorded: seq<bool>, pid: int)
    requires |recorded| == |t|
    ensures pid in PidsOf(t, recorded) <==> exists i: nat :: LiveAt(t, recorded, i, pid)
    ensures forall i: nat :: LiveAt(t, recorded, i, pid) ==>
      pid in PidsOf(t, recorded) && PidsOf(t, recorded)[pid] == t[i].path
    decreases |t|
  {
    if t != [] {
      var n := |t| - 1;
      var p, q := t[..n], recorded[..n];
      LiveFold(p, q, pid);
      var ends := t[n].Exit? && t[n].pid == pid;
      var anew := recorded[n] && t[n].Exec? && t[n].pid == pid;
      forall i: nat | i < n ensures LiveAt(t, recorded, i, pid) <==> LiveAt(p, q, i, pid) && !ends && !anew {
        assert forall j :: 0 <= j < n ==> p[j] == t[j] && q[j] == recorded[j];
      }
      assert LiveAt(t, recorded, n, pid) <==> anew;
      if pid in PidsOf(p, q) && !ends && !anew {
        var i: nat :| LiveAt(p, q, i, pid);
        assert LiveAt(t, recorded, i, pid);
      }
    }
  }

  /** `pids` is at all times exactly the live processes, each with the path of its last recorded exec. */
  lemma PidsAreLive(w: World, m: Meta, t: seq<Record>, cached: bool, pid: int)
    requires m.pids == map[] && !Run(w, m, t, cached).failed
    ensures var pids, recorded := Run(w, m, t, cached).m.pids, RecordedAll(w, m, t, cached);
      && (pid in pids <==> exists i: nat :: LiveAt(t, recorded, i, pid))
      && (forall i: nat :: LiveAt(t, recorded, i, pid) ==> pid in pids && pids[pid] == t[i].path)
  {
    RunPids(w, m, t, cached);
    LiveFold(t, RecordedAll(w, m, t, cached), pid);
  }

  // ---- how a parse ends ---------------------------------------------------------------------

  /** k is the first V record. */
  predicate FirstVersion(t: seq<Record>, k: nat) {
    k < |t| && t[k].Version? && forall j :: 0 <= j < k ==> !t[j].Version?
  }

  /** No header record follows record k. */
  predicate CleanAfter(t: seq<Record>, k: nat) {
    forall j :: k < j < |t| ==> !IsHeader(t[j])
  }

  predicate ByeAfter(t: seq<Record>, k: nat) {
    exists j :: k < j < |t| && t[j] == Comment(true)
  }

  lemma {:induction false} ControlFlags(chdir: (string, string) -> string, start: string, t: seq<Record>)
    ensures var c := Controls(chdir, start, t);
      && (!HasVersion(t) ==> c.skip && !c.failed && c.version == 0 && !c.bye)
      && (forall k: nat :: FirstVersion(t, k) ==>
            && (c.failed <==> !CleanAfter(t, k))
            && !c.skip && c.version == t[k].n && (!c.failed ==> (c.bye <==> ByeAfter(t, k))))
    decreases |t|
  {
    if t != [] {
      var last := |t| - 1;
      var p, r := t[..last], t[last];
      ControlFlags(chdir, start, p);
      HasVersionSnoc(t);
      assert forall j :: 0 <= j < last ==> p[j] == t[j];
      forall k: nat | FirstVersion(t, k) && k < last
        ensures FirstVersion(p, k)
        ensures CleanAfter(t, k) <==> CleanAfter(p, k) && !IsHeader(r)
        ensures ByeAfter(t, k) <==> ByeAfter(p, k) || r == Comment(true)
      {
        if ByeAfter(p, k) {
          var j :| k < j < |p| && p[j] == Comment(true);
          assert t[j] == Comment(true);
        }
        if ByeAfter(t, k) {
          var j :| k < j < |t| && t[j] == Comment(true);
          assert j == last || p[j] == Comment(true);
        }
      }
      if FirstVersion(t, last) { assert !HasVersion(p); }
    }
  }

  /** A parse ends normally exactly when a V record with a non-zero version opens the trace, a Bye line
      closes it, no header record strays into it, and every process still running execed a set-id file. */
  lemma ParsedExactly(w: World, m: Meta, t: seq<Record>, cached: bool)
    requires m.pids == map[]
    ensures Verdict(w, Run(w, m, t, cached)) == Parsed <==>
      && (exists k: nat :: FirstVersion(t, k) && t[k].n != 0 && CleanAfter(t, k) && ByeAfter(t, k))
      && (forall i: nat, pid :: LiveAt(t, RecordedAll(w, m, t, cached), i, pid) ==> w.setId(t[i].path))
  {
    var s, recorded := Run(w, m, t, cached), RecordedAll(w, m, t, cached);
    RunControl(w, m, t, cached);
    ControlFlags(Chdirs(w), m.cwd, t);
    if HasVersion(t) {
      var k := First(t);
      assert forall j: nat :: FirstVersion(t, j) ==> j == k;
      if !s.failed {
        RunPids(w, m, t, cached);
        PidsSetId(w, t, recorded);
      }
    }
  }

  /** Some process still running has no set-id file. */
  ghost predicate SomeLost(w: World, t: seq<Record>, recorded: seq<bool>)
    requires |recorded| == |t|
  {
    exists i: nat, pid :: LiveAt(t, recorded, i, pid) && !w.setId(t[i].path)
  }

  /** And which of the errors it ends in otherwise: the first of a stray header record, no data, no Bye line and a
      missing exit. */
  lemma ErrorExactly(w: World, m: Meta, t: seq<Record>, cached: bool, k: nat)
    requires m.pids == map[] && FirstVersion(t, k)
    ensures var v := Verdict(w, Run(w, m, t, cached));
      && (v == BadRecord <==> !CleanAfter(t, k))
      && (v == MissingData <==> CleanAfter(t, k) && t[k].n == 0)
      && (v == Truncated <==> CleanAfter(t, k) && t[k].n != 0 && !ByeAfter(t, k))
      && (v == MissingExit <==>
            CleanAfter(t, k) && t[k].n != 0 && ByeAfter(t, k) && SomeLost(w, t, RecordedAll(w, m, t, cached)))
  {
    var s, recorded := Run(w, m, t, cached), RecordedAll(w, m, t, cached);
    RunControl(w, m, t, cached);
    ControlFlags(Chdirs(w), m.cwd, t);
    if !s.failed {
      RunPids(w, m, t, cached);
      PidsSetId(w, t, recorded);
    }
  }

  /** Without a V record there is no data. */
  lemma NoDataExactly(w: World, m: Meta, t: seq<Record>, cached: bool)
    requires !HasVersion(t)
    ensures Verdict(w, Run(w, m, t, cached)) == MissingData
  {
    RunControl(w, m, t, cached);
    ControlFlags(Chdirs(w), m.cwd, t);
  }

  // ---- what is seen -------------------------------------------------------------------------

  lemma StepSeen(w: World, s: Loop, r: Record, cached: bool)
    ensures s.m.seen <= Step(w, s, r, cached).m.seen
  {
    if r.IsFileOp() { FileOpFrame(w, Switch(s, r.pid), r, cached); }
  }

  /** What the parser starts with stays, and so does the directory it runs in. */
  lemma {:induction false} SeenStays(w: World, m: Meta, t: seq<Record>, cached: bool)
    ensures var seen := Run(w, m, t, cached).m.seen;
      m.seen <= seen && (w.curdir.Some? && w.curdir.value != "" ==> w.curdir.value in seen)
    decreases |t|
  {
    if t != [] {
      SeenStays(w, m, t[..|t| - 1], cached);
      StepSeen(w, Run(w, m, t[..|t| - 1], cached), t[|t| - 1], cached);
    }
  }

  lemma CwdSeen(w: World, m: Meta, t: seq<Record>, cached: bool)
    requires t != [] && t[|t| - 1].Cwd? && !HasVersion(t[..|t| - 1])
    ensures t[|t| - 1].dir in Run(w, m, t, cached).m.seen
  {
    RunControl(w, m, t[..|t| - 1], cached);
    ControlFlags(Chdirs(w), m.cwd, t[..|t| - 1]);
  }

  lemma {:induction false} HeaderSeen(w: World, m: Meta, t: seq<Record>, cached: bool, i: nat)
    requires i < |t| && t[i].Cwd? && !HasVersion(t[..i])
    ensures t[i].dir in Run(w, m, t, cached).m.seen
    decreases |t|
  {
    var last := |t| - 1;
    if i < last {
      assert t[..last][..i] == t[..i];
      HeaderSeen(w, m, t[..last], cached, i);
      StepSeen(w, Run(w, m, t[..last], cached), t[last], cached);
    } else {
      CwdSeen(w, m, t, cached);
    }
  }

  /** Nothing is forgotten; the directory the parser runs in and every directory a CWD record names are seen. */
  lemma SeenHolds(w: World, m: Meta, t: seq<Record>, cached: bool)
    ensures var seen := Run(w, m, t, cached).m.seen;
      && m.seen <= seen
      && (w.curdir.Some? && w.curdir.value != "" ==> w.curdir.value in seen)
      && (forall i: nat | i < |t| && t[i].Cwd? && !HasVersion(t[..i]) :: t[i].dir in seen)
  {
    SeenStays(w, m, t, cached);
    forall i: nat | i < |t| && t[i].Cwd? && !HasVersion(t[..i]) ensures t[i].dir in Run(w, m, t, cached).m.seen {
      HeaderSeen(w, m, t, cached, i);
    }
  }

  lemma PidsSetId(w: World, t: seq<Record>, recorded: seq<bool>)
    requires |recorded| == |t|
    ensures (forall pid :: pid in PidsOf(t, recorded) ==> w.setId(PidsOf(t, recorded)[pid]))
       <==> (forall i: nat, pid :: LiveAt(t, recorded, i, pid) ==> w.setId(t[i].path))
  {
    if forall pid :: pid in PidsOf(t, recorded) ==> w.setId(PidsOf(t, recorded)[pid]) {
      forall i: nat, pid | LiveAt(t, recorded, i, pid) ensures w.setId(t[i].path) {
        LiveFold(t, recorded, pid);
      }
    }
    if forall i: nat, pid :: LiveAt(t, recorded, i, pid) ==> w.setId(t[i].path) {
      forall pid | pid in PidsOf(t, recorded) ensures w.setId(PidsOf(t, recorded)[pid]) {
        LiveFold(t, recorded, pid);
        var i: nat :| LiveAt(t, recorded, i, pid);
      }
    }
  }

  lemma {:induction false} First(t: seq<Record>) returns (k: nat)
    requires HasVersion(t)
    ensures FirstVersion(t, k)
    decreases |t|
  {
    var last := |t| - 1;
    HasVersionSnoc(t);
    if HasVersion(t[..last]) {
      k := First(t[..last]);
      assert forall j :: 0 <= j < last ==> t[..last][j] == t[j];
    } else {
      k := last;
      assert forall j :: 0 <= j < last ==> !t[..last][j].Version?;
    }
  }
}
