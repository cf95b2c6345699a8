/** meta2deps.py as it runs: a MetaFile object whose fields its methods update, each method proved to do
    what MetaSpec says. */
module MetaFile {
  import opened Wrappers
  import opened PyStrings
  import opened CleanPath
  import opened MetaSpec
  import opened MetaProcess

  method ResolvePath(w: World, path0: string, cwd: string, lastDir: Option<string>) returns (r: Option<string>)
    ensures r == Resolve(w, path0, cwd, lastDir)
  {
    var path := path0;
    while EndsWith(path, "/.")
      invariant StripDots(path) == StripDots(path0)
      decreases |path|
    {
      path := path[..|path| - 2];
    }
    if path != "" && path[0] == '/' {
      return if w.present(path) then Some(path) else None;
    }
    if path == "." {
      return Some(cwd);
    }
    if "./" <= path {
      while "./" <= path
        invariant "./" <= path || path == StripDots(path0)[1..]
        invariant "./" <= path ==> path == StripDots(path0)
        decreases |path|
      {
        path := path[1..];
      }
      return Some(cwd + path);
    }
    var dirs := [if lastDir == Some(cwd) then None else lastDir, Some(cwd)];
    var first := if lastDir.None? || lastDir.value == cwd then None else Under(w, lastDir.value, path);
    var i := 0;
    while i < 2
      invariant 0 <= i <= 2
      invariant i >= 1 ==> first.None?
      invariant i == 2 ==> Under(w, cwd, path).None?
    {
      var d := dirs[i];
      i := i + 1;
      if d.None? || d.value == "" {
        continue;
      }
      if path == ".." {
        return Some(DotDot(d.value));
      }
      if w.present(d.value + "/" + path) {
        return Some(d.value + "/" + path);
      }
    }
    return None;
  }

  method AbsolutePath(w: World, path: string, cwd: string, lastDir: Option<string>) returns (r: Option<string>)
    ensures r == AbsPath(w, path, cwd, lastDir)
  {
    var rpath := ResolvePath(w, path, cwd, lastDir);
    var p := path;
    if rpath.Some? && rpath.value != "" {
      p := rpath.value;
    } else if "/" <= path {
      return None;
    }
    if NeedsCleaning(p) {
      p := CleanUp(p);
    }
    return Some(p);
  }

  method Top(path: string, tops: seq<string>) returns (r: Option<string>)
    ensures r == FindTop(path, tops)
  {
    var i := 0;
    while i < |tops|
      invariant 0 <= i <= |tops|
      invariant FindTop(path, tops) == FindTop(path, tops[i..])
    {
      if tops[i] <= path {
        return Some(tops[i]);
      }
      i := i + 1;
    }
    return None;
  }

  class MetaFile {
    const w: World
    var seen: set<string>
    var srcDeps: seq<string>
    var objDeps: seq<string>
    var pids: map<int, string>
    var lastDir: string
    var cwd: string

    function Fields(): Meta
      reads this
    {
      Meta(seen, srcDeps, objDeps, pids, lastDir, cwd)
    }

    /** A MetaFile created in directory start, sharing what the earlier ones of the run have collected. */
    constructor (w: World, start: string, shared: Meta)
      ensures this.w == w
      ensures Fields() == shared.(pids := map[], lastDir := start, cwd := start)
    {
      this.w := w;
      seen, srcDeps, objDeps := shared.seen, shared.srcDeps, shared.objDeps;
      pids, lastDir, cwd := map[], start, start;
    }

    method SeenIt(d: string)
      modifies this`seen
      ensures seen == old(seen) + {d}
    {
      seen := seen + {d};
    }

    method IsSource(base: string, dirs: seq<string>) returns (found: bool)
      modifies this`seen, this`srcDeps
      ensures (found, Fields()) == IsSrc(w, old(Fields()), base, dirs)
    {
      var i := 0;
      while i < |dirs|
        invariant 0 <= i <= |dirs|
        invariant Fields() == old(Fields())
        invariant IsSrc(w, old(Fields()), base, dirs) == IsSrc(w, old(Fields()), base, dirs[i..])
      {
        var dir := dirs[i];
        i := i + 1;
        if dir == "" {
          continue;
        }
        var srctop := Top(dir + "/" + base, w.srctops);
        if srctop.Some? {
          srcDeps := Add(srcDeps, Remove(dir, srctop.value));
          SeenIt(dir);
          return true;
        }
      }
      return false;
    }

    method FindObject(objroot: string, dir: string, input: string) returns (ddep: Option<string>)
      modifies this`seen
      ensures ddep == ObjDep(w, objroot, dir)
      ensures seen == old(seen) + {input, dir}
    {
      SeenIt(input);
      SeenIt(dir);
      var rel := Remove(dir, objroot);
      if w.machine == "none" {
        return if objroot <= dir then Some(rel) else None;
      }
      var m := MachineAndRest(rel);
      if m.None? {
        return None;
      }
      ddep := Some(m.value.1);
      if m.value.0 != w.machine {
        if !(w.machine == "host" && w.hostTarget == Some(m.value.0)) {
          ddep := Some(ddep.value + "." + m.value.0);
        }
      }
    }

    method ClassifyFile(dir0: string, rdir: Option<string>, base: string, input: string)
      modifies this`seen, this`srcDeps, this`objDeps
      ensures Fields() == Classify(w, old(Fields()), dir0, rdir, base, input)
    {
      if dir0 == cwd || Some(dir0) == w.curdir {
        return;
      }
      var found := IsSource(base, BothNames(dir0, rdir));
      if found {
        SeenIt(input);
        if rdir.None? || rdir.value == "" {
          return;
        }
      }
      ghost var m2 := Fields();
      var dirs := BothNames(dir0, rdir);
      var objroot: Option<string> := None;
      var dir := "";
      var i := 0;
      while i < |dirs|
        invariant 0 <= i <= |dirs|
        invariant Fields() == m2 && objroot.None? && FindObjroot(w, dirs) == FindObjroot(w, dirs[i..])
      {
        dir := dirs[i];
        i := i + 1;
        if dir == "" {
          continue;
        }
        objroot := Top(dir, w.objroots);
        if objroot.Some? {
          assert FindObjroot(w, dirs) == Some((objroot.value, dir));
          break;
        }
      }
      if objroot.Some? {
        var ddep := FindObject(objroot.value, dir, input);
        if ddep.Some? && ddep.value != "" {
          objDeps := Add(objDeps, ddep.value);
        }
      } else {
        SeenIt(input);
        if rdir.Some? {
          SeenIt(rdir.value);
        }
      }
    }

    /** The absolute name of the directory part, and the real one if that differs. */
    method DirectoryNames(raw: string, cwd: string) returns (dir: string, rdir: Option<string>)
      ensures (dir, rdir) == DirNames(w, Fields(), cwd, raw)
    {
      var a := AbsolutePath(w, raw, cwd, Some(lastDir));
      dir, rdir := raw, None;
      if a.Some? && a.value != "" {
        dir := a.value;
        rdir := Some(w.realPath(dir));
        if rdir == Some(dir) {
          rdir := None;
        }
      }
    }

    method LookAt(path0: string, cwd: string, op: Op, input: string)
      modifies this`seen, this`srcDeps, this`objDeps, this`lastDir
      ensures Fields() == ParsePath(w, old(Fields()), cwd, path0, op, input, true)
    {
      if EndsWith(path0, ".dirdep") {
        return;
      }
      if exists p :: p in w.excludes && p != "" && p <= path0 {
        return;
      }
      var path := ResolvePath(w, path0, cwd, Some(lastDir));
      if path.None? || path.value == "" {
        return;
      }
      var (raw, base) := SplitPath(path.value);
      if raw in seen {
        return;
      }
      var dir, rdir := DirectoryNames(raw, cwd);
      var full := dir + "/" + base;
      if op != ExecOp {
        if full == lastDir || full == cwd || full == this.cwd || Some(full) == w.curdir {
          return;
        }
        if w.isDir(full) {
          lastDir := full;
          return;
        }
      }
      if op != WriteOp {
        ClassifyFile(dir, rdir, base, input);
      }
    }

    /** parse, given an open file. */
    method Parse(t: seq<Record>) returns (outcome: Outcome)
      modifies this
      ensures var s := Run(w, old(Fields()), t, true);
        && outcome == Verdict(w, s)
        && (outcome.BadRecord? || outcome.MissingData? || outcome.Truncated? ==> pids == s.m.pids)
        && (outcome.MissingExit? ==> pids == map pid | pid in s.m.pids && !w.setId(s.m.pids[pid]) :: s.m.pids[pid])
        && (outcome.Parsed? ==> pids == map[])
        && Fields() == s.m.(pids := pids)
    {
      var version, bye, failed := ReadAll(t);
      if failed { return BadRecord; }
      if version == 0 { return MissingData; }
      if !bye { return Truncated; }
      outcome := CheckPids();
    }

    /** Its loop over the lines; an exception ends it. */
    method ReadAll(t: seq<Record>) returns (version: int, bye: bool, failed: bool)
      modifies this
      ensures var s := Run(w, old(Fields()), t, true);
        Fields() == s.m && version == s.version && bye == s.bye && failed == s.failed
    {
      ghost var m0 := Fields();
      var dir := cwd;
      lastDir := cwd;
      var skip := true;
      version, bye, failed := 0, false, false;
      var pidCwd: map<int, string>, pidLastDir: map<int, string>, lastPid := map[], map[], 0;
      if w.curdir.Some? && w.curdir.value != "" {
        SeenIt(w.curdir.value);
      }
      var i := 0;
      while i < |t| && !failed
        invariant 0 <= i <= |t|
        invariant Run(w, m0, t[..i], true) ==
          Loop(Fields(), dir, lastPid, pidCwd, pidLastDir, skip, version, bye, failed)
        decreases |t| - i
      {
        ghost var s := Run(w, m0, t[..i], true);
        var r := t[i];
        RunNext(w, m0, t, i);
        i := i + 1;
        if skip {
          dir, skip, version := ReadHeader(r, dir, version, s);
        } else if r.Comment? {
          bye := bye || r.bye;
        } else if r.Other? {
        } else if !r.HasPid() {
          failed := true;
        } else {
          dir, lastPid, pidCwd, pidLastDir := ProcessRecord(r, dir, lastPid, pidCwd, pidLastDir, s);
        }
      }
      RunRest(w, m0, t, i);
    }

    /** A line before the first V. */
    method ReadHeader(r: Record, dir0: string, version0: int, ghost s: Loop)
        returns (dir: string, skip: bool, version: int)
      requires s.skip && !s.failed && s.m == Fields() && s.cwd == dir0 && s.version == version0
      modifies this`cwd, this`lastDir, this`seen
      ensures Step(w, s, r, true) == s.(m := Fields(), cwd := dir, skip := skip, version := version)
    {
      dir, skip, version := dir0, true, version0;
      match r {
        case Version(n) =>
          skip, version := false, n;
        case Cwd(d) =>
          cwd, dir, lastDir := d, d, d;
          SeenIt(d);
        case _ =>
      }
    }

    /** The context switch. */
    method SwitchTo(pid: int, dir0: string, lastPid: int, pidCwd: map<int, string>, pidLastDir0: map<int, string>,
                    ghost s: Loop)
        returns (dir: string, pidLastDir: map<int, string>)
      requires s == Loop(Fields(), dir0, lastPid, pidCwd, pidLastDir0, s.skip, s.version, s.bye, s.failed)
      modifies this`lastDir
      ensures Switch(s, pid) == Loop(Fields(), dir, pid, pidCwd, pidLastDir, s.skip, s.version, s.bye, s.failed)
    {
      dir, pidLastDir := dir0, pidLastDir0;
      if pid != lastPid {
        if lastPid != 0 {
          pidLastDir := pidLastDir[lastPid := lastDir];
        }
        dir := Get(pidCwd, pid, cwd);
        lastDir := Get(pidLastDir, pid, cwd);
      }
    }

    /** One record of a process: the context switch, then the operation. */
    method ProcessRecord(r: Record, dir0: string, lastPid0: int, pidCwd0: map<int, string>,
                         pidLastDir0: map<int, string>, ghost s: Loop)
        returns (dir: string, lastPid: int, pidCwd: map<int, string>, pidLastDir: map<int, string>)
      requires r.HasPid() && !s.skip && !s.failed
      requires s == Loop(Fields(), dir0, lastPid0, pidCwd0, pidLastDir0, s.skip, s.version, s.bye, s.failed)
      modifies this`seen, this`srcDeps, this`objDeps, this`lastDir, this`pids
      ensures Step(w, s, r, true)
           == Loop(Fields(), dir, lastPid, pidCwd, pidLastDir, s.skip, s.version, s.bye, s.failed)
    {
      var pid := r.pid;
      pidCwd := pidCwd0;
      dir, pidLastDir := SwitchTo(pid, dir0, lastPid0, pidCwd0, pidLastDir0, s);
      lastPid := pid;
      ghost var s1 := Switch(s, pid);
      if r.Fork? {
        pidCwd := pidCwd[r.child := dir];
        pidLastDir := pidLastDir[r.child := dir];
        lastPid := r.child;
      } else if r.Chdir? {
        dir := Chdir(r.dir, dir);
        pidLastDir := pidLastDir[pid := dir];
        pidCwd := pidCwd[pid := dir];
      } else if r.Exit? {
        pids := pids - {pid};
      } else {
        FileRecord(r, dir, s1);
        FileOpFrame(w, s1, r, true);
      }
    }

    method Chdir(path: string, cwd: string) returns (dir: string)
      modifies this`lastDir
      ensures dir == ChdirTo(w, cwd, path) && lastDir == dir
    {
      var a := AbsolutePath(w, path, cwd, None);
      dir := if a.Some? && a.value != "" then a.value else path;
      if EndsWith(dir, "/.") {
        dir := dir[..|dir| - 2];
      }
      lastDir := dir;
    }

    method FileRecord(r: Record, dir: string, ghost s: Loop)
      requires r.IsFileOp() && s.m == Fields() && s.cwd == dir
      modifies this`seen, this`srcDeps, this`objDeps, this`lastDir, this`pids
      ensures Fields() == FileOp(w, s, r, true).m
    {
      if r.path in seen {
        return;
      }
      match r {
        case Exec(pid, path) =>
          pids := pids[pid := path];
          LookAt(path, dir, ExecOp, path);
        case Read(_, path) =>
          if path == "." {
            return;
          }
          LookAt(path, dir, ReadOp, path);
        case Link(_, path, target) =>
          LookAt(Strip(path, '\''), dir, ReadOp, path);
          LookAt(Strip(target, '\''), dir, WriteOp, path);
      }
    }

    /** The end of parse: set-id processes are forgiven and forgotten, any other is an error. */
    method CheckPids() returns (outcome: Outcome)
      modifies this`pids
      ensures outcome == if exists pid :: pid in old(pids) && !w.setId(old(pids)[pid]) then MissingExit else Parsed
      ensures pids == map pid | pid in old(pids) && !w.setId(old(pids)[pid]) :: old(pids)[pid]
      ensures outcome == Parsed ==> pids == map[]
    {
      var setid := set pid | pid in pids && w.setId(pids[pid]);
      pids := pids - setid;
      outcome := if |pids| == 0 then Parsed else MissingExit;
      assert forall pid :: pid in old(pids) && pid !in setid ==> pid in pids;
      if forall pid :: pid !in pids {
        assert pids == map[];
      }
    }
  }

  lemma RunNext(w: World, m: Meta, t: seq<Record>, i: nat)
    requires i < |t|
    ensures Run(w, m, t[..i + 1], true) == Step(w, Run(w, m, t[..i], true), t[i], true)
  {
    assert t[..i + 1][..i] == t[..i];
  }

  lemma RunRest(w: World, m: Meta, t: seq<Record>, i: nat)
    requires i == |t| || (i < |t| && Run(w, m, t[..i], true).failed)
    ensures Run(w, m, t, true) == Run(w, m, t[..i], true)
  {
    assert t[..|t|] == t;
    if i < |t| {
      FailedStays(w, m, t, true, i);
    }
  }

  lemma {:induction false} FailedStays(w: World, m: Meta, t: seq<Record>, cached: bool, i: nat)
    requires i <= |t| && Run(w, m, t[..i], cached).failed
    ensures Run(w, m, t, cached) == Run(w, m, t[..i], cached)
    decreases |t|
  {
    if i < |t| {
      assert t[..|t| - 1][..i] == t[..i];
      FailedStays(w, m, t[..|t| - 1], cached, i);
    } else {
      assert t[..i] == t;
    }
  }
}
