/** meta2deps.py as functions on values: the state of one MetaFile, the state of its `parse` loop, and
    what one record does to them. The class in MetaFile.dfy is proved to compute exactly this. */
module MetaSpec {
  import opened Wrappers
  import opened PyStrings
  import opened CleanPath

  /** One line of a meta file, after `line.split()`. A line whose first letter is not in '#CEFLRVX' is Other;
      a CMD line, which has such a letter, is a record of its own. A path is the raw token. */
  datatype Record =
    | Cwd(dir: string)
    | Version(n: int)
    | Comment(bye: bool)
    | Fork(pid: int, child: int)
    | Chdir(pid: int, dir: string)
    | Exit(pid: int)
    | Exec(pid: int, path: string)
    | Read(pid: int, path: string)
    | Link(pid: int, path: string, target: string)
    | Cmd
    | Other
  {
    predicate HasPid() { Fork? || Chdir? || Exit? || Exec? || Read? || Link? }
    predicate IsFileOp() { Exec? || Read? || Link? }
  }

  /** The operations that reach parse_path. */
  datatype Op = ExecOp | ReadOp | WriteOp

  /** The file system and the configuration. Roots are as `__init__` leaves them. */
  datatype World = World(
    present: string -> bool,
    isDir: string -> bool,
    realPath: string -> string,
    setId: string -> bool,
    srctops: seq<string>,
    objroots: seq<string>,
    excludes: seq<string>,
    machine: string,
    hostTarget: Option<string>,
    curdir: Option<string>)

  /** The fields of a MetaFile. The None key that parse_path can put into `seen` is not kept: no lookup
      uses it. */
  datatype Meta = Meta(
    seen: set<string>,
    srcDeps: seq<string>,
    objDeps: seq<string>,
    pids: map<int, string>,
    lastDir: string,
    cwd: string)

  /** The locals of `parse` around the fields. */
  datatype Loop = Loop(
    m: Meta,
    cwd: string,
    lastPid: int,
    pidCwd: map<int, string>,
    pidLastDir: map<int, string>,
    skip: bool,
    version: int,
    bye: bool,
    failed: bool)

  function Get(m: map<int, string>, k: int, d: string): string { if k in m then m[k] else d }

  // ---- paths --------------------------------------------------------------------------------

  function StripDots(path: string): string {
    if EndsWith(path, "/.") then StripDots(path[..|path| - 2]) else path
  }

  function DotDot(d: string): string {
    var w := Split(d, '/');
    var p := Join(w[..|w| - 1], '/');
    if p == "" then "/" else p
  }

  /** One round of resolve's loop over last_dir and cwd. */
  function Under(w: World, d: string, path: string): Option<string> {
    if d == "" then None
    else if path == ".." then Some(DotDot(d))
    else if w.present(d + "/" + path) then Some(d + "/" + path)
    else None
  }

  function Resolve(w: World, path: string, cwd: string, lastDir: Option<string>): Option<string> {
    var p := StripDots(path);
    if "/" <= p then if w.present(p) then Some(p) else None
    else if p == "." then Some(cwd)
    else if "./" <= p then Some(cwd + p[1..])
    else
      var first := if lastDir.None? || lastDir.value == cwd then None else Under(w, lastDir.value, p);
      if first.Some? then first else Under(w, cwd, p)
  }

  predicate NeedsCleaning(path: string) {
    Find(path, "/") < 0 || Find(path, "./") > 0 || Find(path, "/../") > 0 || EndsWith(path, "/..")
  }

  /** Which paths abspath hands to cleanpath: those without a slash, and those with an up-step or with a dot
      before a slash; but one that starts with a dot and a slash only if it has an up-step. */
  lemma NeedsCleaningExactly(path: string)
    ensures NeedsCleaning(path) <==>
      || (forall k :: !OccursAt(path, "/", k))
      || (!("./" <= path) && exists k :: OccursAt(path, "./", k))
      || (!("/../" <= path) && exists k :: OccursAt(path, "/../", k))
      || EndsWith(path, "/..")
  {
    FindFirst(path, "/");
    FindFirst(path, "./");
    FindFirst(path, "/../");
    assert path[0..] == path;
  }

  function AbsPath(w: World, path: string, cwd: string, lastDir: Option<string>): Option<string> {
    var r := Resolve(w, path, cwd, lastDir);
    if (r.None? || r.value == "") && "/" <= path then None
    else
      var p := if r.None? || r.value == "" then path else r.value;
      Some(if NeedsCleaning(p) then Clean(p) else p)
  }

  /** The directory a process is in after a C record. */
  function ChdirTo(w: World, cwd: string, dir: string): string {
    var a := AbsPath(w, dir, cwd, None);
    var d := if a.None? || a.value == "" then dir else a.value;
    if EndsWith(d, "/.") then d[..|d| - 2] else d
  }

  function FindTop(path: string, tops: seq<string>): Option<string> {
    if tops == [] then None
    else if tops[0] <= path then Some(tops[0])
    else FindTop(path, tops[1..])
  }

  predicate Excluded(path: string, excludes: seq<string>) {
    exists p :: p in excludes && p != "" && p <= path
  }

  // ---- dependencies -------------------------------------------------------------------------

  /** is_src: the first of dir and rdir whose files lie under a source root. */
  function IsSrc(w: World, m: Meta, base: string, dirs: seq<string>): (bool, Meta) {
    if dirs == [] then (false, m)
    else if dirs[0] == "" then IsSrc(w, m, base, dirs[1..])
    else
      var top := FindTop(dirs[0] + "/" + base, w.srctops);
      if top.Some? then
        (true, m.(srcDeps := Add(m.srcDeps, Remove(dirs[0], top.value)), seen := m.seen + {dirs[0]}))
      else IsSrc(w, m, base, dirs[1..])
  }

  /** The object root of the first of dir and rdir that has one, with that directory. */
  function FindObjroot(w: World, dirs: seq<string>): Option<(string, string)> {
    if dirs == [] then None
    else
      var root := if dirs[0] == "" then None else FindTop(dirs[0], w.objroots);
      if root.Some? then Some((root.value, dirs[0])) else FindObjroot(w, dirs[1..])
  }

  /** The pattern ([^/]+)/(.+) on a path without white space. */
  function MachineAndRest(rel: string): Option<(string, string)> {
    var i := Find(rel, "/");
    if 0 < i && i + 1 < |rel| then Some((rel[..i], rel[i + 1..])) else None
  }

  lemma FirstSlash(a: string, b: string)
    requires '/' !in a
    ensures Find(a + "/" + b, "/") == |a|
  {
    var s := a + "/" + b;
    FindFirst(s, "/");
    assert s[|a|..] == "/" + b;
    assert OccursAt(s, "/", |a|);
    forall j | 0 <= j < |a| ensures !OccursAt(s, "/", j) {
      assert s[j..][0] == a[j];
    }
  }

  /** It matches exactly the paths made of a machine, a slash and something more. */
  lemma MachineAndRestExactly(rel: string, machine: string, rest: string)
    ensures MachineAndRest(rel) == Some((machine, rest)) <==>
      rel == machine + "/" + rest && machine != "" && '/' !in machine && rest != ""
  {
    if rel == machine + "/" + rest && '/' !in machine {
      FirstSlash(machine, rest);
      assert rel[..|machine|] == machine && rel[|machine| + 1..] == rest;
    }
    if MachineAndRest(rel) == Some((machine, rest)) {
      var i := Find(rel, "/");
      FindFirst(rel, "/");
      assert rel[i..][0] == rel[i] == '/';
      assert rel == rel[..i] + "/" + rel[i + 1..];
      forall k | 0 <= k < i ensures machine[k] != '/' {
        assert rel[k..][0] == rel[k];
        assert OccursAt(rel, "/", k) == (rel[k] == '/');
      }
    }
  }

  /** find_obj's result when there is no .dirdep file. */
  function ObjDep(w: World, root: string, dir: string): Option<string> {
    if w.machine == "none" then
      if root <= dir then Some(Remove(dir, root)) else None
    else
      var mr := MachineAndRest(Remove(dir, root));
      if mr.None? then None
      else if mr.value.0 != w.machine && !(w.machine == "host" && w.hostTarget == Some(mr.value.0)) then
        Some(mr.value.1 + "." + mr.value.0)
      else Some(mr.value.1)
  }

  /** dir and, when it differs, the real directory behind it. */
  function BothNames(dir: string, rdir: Option<string>): seq<string> {
    if rdir.Some? then [dir, rdir.value] else [dir]
  }

  /** The tail of parse_path for E and R. */
  function Classify(w: World, m: Meta, dir: string, rdir: Option<string>, base: string, input: string): Meta {
    if dir == m.cwd || Some(dir) == w.curdir then m
    else
      var (found, m1) := IsSrc(w, m, base, BothNames(dir, rdir));
      var m2 := if found then m1.(seen := m1.seen + {input}) else m1;
      if found && (rdir.None? || rdir.value == "") then m2
      else
        var o := FindObjroot(w, BothNames(dir, rdir));
        if o.Some? then
          var m3 := m2.(seen := m2.seen + {input, o.value.1});
          var dep := ObjDep(w, o.value.0, o.value.1);
          if dep.Some? && dep.value != "" then m3.(objDeps := Add(m3.objDeps, dep.value)) else m3
        else
          // the loop variable is left at rdir, so dir itself is not remembered
          m2.(seen := m2.seen + {input} + (if rdir.Some? then {rdir.value} else {}))
  }

  /** The names parse_path settles on for the directory part. */
  function DirNames(w: World, m: Meta, cwd: string, raw: string): (string, Option<string>) {
    var a := AbsPath(w, raw, cwd, Some(m.lastDir));
    if a.Some? && a.value != "" then
      var r := w.realPath(a.value);
      (a.value, if r == a.value then None else Some(r))
    else (raw, None)
  }

  predicate Home(w: World, m: Meta, cwd: string, path: string) {
    path == m.lastDir || path == cwd || path == m.cwd || Some(path) == w.curdir
  }

  /** parse_path; without the cache no `seen` test is made. */
  function ParsePath(w: World, m: Meta, cwd: string, path: string, op: Op, input: string, cached: bool): Meta {
    if EndsWith(path, ".dirdep") || Excluded(path, w.excludes) then m
    else
      var p := Resolve(w, path, cwd, Some(m.lastDir));
      if p.None? || p.value == "" then m
      else
        var (raw, base) := SplitPath(p.value);
        if cached && raw in m.seen then m
        else
          var (dir, rdir) := DirNames(w, m, cwd, raw);
          var full := dir + "/" + base;
          if op != ExecOp && Home(w, m, cwd, full) then m
          else if op != ExecOp && w.isDir(full) then m.(lastDir := full)
          else if op != WriteOp then Classify(w, m, dir, rdir, base, input)
          else m
  }

  // ---- records ------------------------------------------------------------------------------

  /** The context switch at the head of a record of process pid. */
  function Switch(s: Loop, pid: int): Loop {
    if pid == s.lastPid then s
    else
      var saved := if s.lastPid != 0 then s.pidLastDir[s.lastPid := s.m.lastDir] else s.pidLastDir;
      s.(pidLastDir := saved,
         cwd := Get(s.pidCwd, pid, s.m.cwd),
         m := s.m.(lastDir := Get(saved, pid, s.m.cwd)),
         lastPid := pid)
  }

  function FileOp(w: World, s: Loop, r: Record, cached: bool): Loop
    requires r.IsFileOp()
  {
    if cached && r.path in s.m.seen then s
    else match r
      case Exec(pid, path) =>
        s.(m := ParsePath(w, s.m.(pids := s.m.pids[pid := path]), s.cwd, path, ExecOp, path, cached))
      case Read(_, path) =>
        if path == "." then s else s.(m := ParsePath(w, s.m, s.cwd, path, ReadOp, path, cached))
      case Link(_, path, target) =>
        var m1 := ParsePath(w, s.m, s.cwd, Strip(path, '\''), ReadOp, path, cached);
        s.(m := ParsePath(w, m1, s.cwd, Strip(target, '\''), WriteOp, path, cached))
  }

  function Step(w: World, s: Loop, r: Record, cached: bool): Loop {
    if s.failed then s
    else if s.skip then
      match r
      case Version(n) => s.(skip := false, version := n)
      case Cwd(d) => s.(m := s.m.(cwd := d, lastDir := d, seen := s.m.seen + {d}), cwd := d)
      case _ => s
    else
      match r
      case Cwd(_) => s.(failed := true)      // int() of a path raises
      case Version(_) => s.(failed := true)  // there is no third word
      case Cmd => s.(failed := true)         // int() of a command raises
      case Comment(bye) => s.(bye := s.bye || bye)
      case Other => s
      case Fork(pid, child) =>
        var s1 := Switch(s, pid);
        s1.(pidCwd := s1.pidCwd[child := s1.cwd], pidLastDir := s1.pidLastDir[child := s1.cwd], lastPid := child)
      case Chdir(pid, dir) =>
        var s1 := Switch(s, pid);
        var d := ChdirTo(w, s1.cwd, dir);
        s1.(cwd := d, m := s1.m.(lastDir := d), pidLastDir := s1.pidLastDir[pid := d], pidCwd := s1.pidCwd[pid := d])
      case Exit(pid) =>
        var s1 := Switch(s, pid);
        s1.(m := s1.m.(pids := s1.m.pids - {pid}))
      case _ => FileOp(w, Switch(s, r.pid), r, cached)
  }

  function Remember(m: Meta, d: Option<string>): Meta {
    if d.Some? && d.value != "" then m.(seen := m.seen + {d.value}) else m
  }

  /** parse given an open file: cwd and last_dir start at the object's cwd. */
  function Start(w: World, m: Meta): Loop {
    Loop(Remember(m.(lastDir := m.cwd), w.curdir), m.cwd, 0, map[], map[], true, 0, false, false)
  }

  function Run(w: World, m: Meta, t: seq<Record>, cached: bool): Loop {
    if t == [] then Start(w, m)
    else Step(w, Run(w, m, t[..|t| - 1], cached), t[|t| - 1], cached)
  }

  datatype Outcome = Parsed | BadRecord | MissingData | Truncated | MissingExit

  function Verdict(w: World, s: Loop): Outcome {
    if s.failed then BadRecord
    else if s.version == 0 then MissingData
    else if !s.bye then Truncated
    else if exists pid :: pid in s.m.pids && !w.setId(s.m.pids[pid]) then MissingExit
    else Parsed
  }
}
