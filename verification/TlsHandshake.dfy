/** The two-thread handshake of cheriostest_tls_threads.c as interleaved steps: one step per statement that
    another thread can observe, condition variables with spurious wakeups. The thread-local variables are
    the list init of their initial values: 1, 2, 3, 4 in dynamic builds, 3, 4 in static ones. */
module TlsHandshake {

  datatype Thread = Main | Worker

  /** Where main is. */
  datatype MainAt =
    | MCreate | MAddresses | MLock | MTest | MWait | MAsleep | MWoken
    | MRead(k: nat) | MSet | MBroadcast | MUnlock | MCheck | MSuccess | MFailed

  /** Where test_tls_threads_get_vars is. */
  datatype WorkerAt =
    | WUnborn | WPublish(k: nat) | WBump(k: nat) | WLock | WSet | WBroadcast | WWait | WAsleep | WWoken
    | WTest | WUnlock | WReturned

  datatype Owner = Free | Held(holder: Thread)

  datatype State = State(
    main: MainAt,
    worker: WorkerAt,
    lock: Owner,
    done: int,             // thread_done
    published: seq<bool>,  // thr_tls_k points at the worker's copy; false is the initial null
    mine: seq<int>,        // main's copies
    theirs: seq<int>,      // the worker's copies, gone once it has returned
    read: seq<int>)        // thr_tls_k_val

  datatype Action = MainStep | WorkerStep | WakeMain | WakeWorker

  predicate Spurious(a: Action) { a.WakeMain? || a.WakeWorker? }

  function Init(init: seq<int>): State {
    State(MCreate, WUnborn, Free, 0, seq(|init|, _ => false), init, init, [])
  }

  function Bumped(init: seq<int>): seq<int> { seq(|init|, k requires 0 <= k < |init| => init[k] + 1) }

  predicate Enabled(s: State, a: Action) {
    match a
    case MainStep =>
      !s.main.MAsleep? && !s.main.MSuccess? && !s.main.MFailed?
      && (s.main.MLock? || s.main.MWoken? ==> s.lock.Free?)
    case WorkerStep =>
      !s.worker.WUnborn? && !s.worker.WAsleep? && !s.worker.WReturned?
      && (s.worker.WLock? || s.worker.WWoken? ==> s.lock.Free?)
    case WakeMain => s.main.MAsleep?
    case WakeWorker => s.worker.WAsleep?
  }

  function DoMain(init: seq<int>, s: State): State {
    match s.main
    case MCreate => s.(main := MAddresses, worker := WPublish(0))
    case MAddresses => s.(main := MLock)
    case MLock => s.(main := MTest, lock := Held(Main))
    case MWoken => s.(main := MTest, lock := Held(Main))
    case MTest => s.(main := if s.done == 0 then MWait else MRead(0))
    case MWait => s.(main := MAsleep, lock := Free)
    case MRead(k) =>
      if k >= |init| then s.(main := MSet)
      else if k < |s.published| && s.published[k] && !s.worker.WReturned? && k < |s.theirs| then
        s.(main := MRead(k + 1), read := s.read + [s.theirs[k]])
      else s.(main := MFailed)  // a null or dangling thr_tls pointer
    case MSet => s.(main := MBroadcast, done := 2)
    case MBroadcast => s.(main := MUnlock, worker := if s.worker.WAsleep? then WWoken else s.worker)
    case MUnlock => s.(main := MCheck, lock := Free)
    case MCheck => s.(main := if s.mine == init && s.read == Bumped(init) then MSuccess else MFailed)
    case _ => s
  }

  function DoWorker(init: seq<int>, s: State): State {
    match s.worker
    case WPublish(k) =>
      if k >= |init| || k >= |s.published| then s.(worker := WLock)
      else s.(worker := WBump(k), published := s.published[k := true])
    case WBump(k) =>
      if k >= |s.theirs| then s.(worker := WLock)
      else s.(worker := WPublish(k + 1), theirs := s.theirs[k := s.theirs[k] + 1])
    case WLock => s.(worker := WSet, lock := Held(Worker))
    case WSet => s.(worker := WBroadcast, done := 1)
    case WBroadcast => s.(worker := WWait, main := if s.main.MAsleep? then MWoken else s.main)
    case WWait => s.(worker := WAsleep, lock := Free)
    case WWoken => s.(worker := WTest, lock := Held(Worker))
    case WTest => s.(worker := if s.done == 1 then WWait else WUnlock)
    case WUnlock => s.(worker := WReturned, lock := Free)
    case _ => s
  }

  function Do(init: seq<int>, s: State, a: Action): State {
    match a
    case MainStep => DoMain(init, s)
    case WorkerStep => DoWorker(init, s)
    case WakeMain => s.(main := MWoken)
    case WakeWorker => s.(worker := WWoken)
  }

  /** The states of a run; None when some action was not enabled. */
  datatype Maybe = Nowhere | At(s: State)

  function Run(init: seq<int>, acts: seq<Action>): Maybe {
    if acts == [] then At(Init(init))
    else
      var before := Run(init, acts[..|acts| - 1]);
      var a := acts[|acts| - 1];
      if before.At? && Enabled(before.s, a) then At(Do(init, before.s, a)) else Nowhere
  }

  // ---- what every state keeps -----------------------------------------------------------------

  predicate MainHolds(m: MainAt) {
    m.MTest? || m.MWait? || m.MRead? || m.MSet? || m.MBroadcast? || m.MUnlock?
  }

  predicate WorkerHolds(w: WorkerAt) {
    w.WSet? || w.WBroadcast? || w.WWait? || w.WTest? || w.WUnlock?
  }

  /** The worker is still to say that it is done. */
  predicate Early(w: WorkerAt) { w.WUnborn? || w.WPublish? || w.WBump? || w.WLock? || w.WSet? }

  predicate MainLate(m: MainAt) { m.MBroadcast? || m.MUnlock? || m.MCheck? || m.MSuccess? }

  /** The mutex is held by the thread that is between its lock and its unlock or wait: by one at most. */
  predicate LockInv(s: State) {
    && (s.lock == Held(Main) <==> MainHolds(s.main))
    && (s.lock == Held(Worker) <==> WorkerHolds(s.worker))
  }

  /** thread_done says how far both are, and no broadcast was missed: a sleeper is still to be woken. */
  predicate PhaseInv(s: State) {
    && (s.done == 0 <==> Early(s.worker))
    && (s.done == 2 <==> MainLate(s.main))
    && 0 <= s.done <= 2
    && (s.main.MCreate? <==> s.worker.WUnborn?)
    && (s.worker.WUnlock? || s.worker.WReturned? ==> s.done == 2)
    && (s.worker.WAsleep? && s.done == 2 ==> s.main.MBroadcast?)
    && (s.main.MAsleep? ==> s.done == 0 || s.worker.WBroadcast?)
    && (s.worker.WBroadcast? || s.worker.WWait? ==> s.done == 1)
    && (s.main.MWait? ==> s.done == 0)
    && (s.main.MRead? || s.main.MSet? ==> s.done == 1)
  }

  /** How many of its variables the worker has published, and bumped. */
  function PublishedBy(init: seq<int>, w: WorkerAt): nat {
    match w
    case WUnborn => 0
    case WPublish(k) => k
    case WBump(k) => k + 1
    case _ => |init|
  }

  function BumpedBy(init: seq<int>, w: WorkerAt): nat {
    match w
    case WUnborn => 0
    case WPublish(k) => k
    case WBump(k) => k
    case _ => |init|
  }

  predicate ValueInv(init: seq<int>, s: State) {
    && |s.published| == |s.theirs| == |init| && s.mine == init
    && (s.worker.WPublish? ==> s.worker.k <= |init|) && (s.worker.WBump? ==> s.worker.k < |init|)
    && (forall k :: 0 <= k < |init| ==> (s.published[k] <==> k < PublishedBy(init, s.worker)))
    && (forall k :: 0 <= k < |init| ==> s.theirs[k] == init[k] + if k < BumpedBy(init, s.worker) then 1 else 0)
    && !s.main.MFailed?
    && (s.main.MRead? ==> s.main.k <= |init| && s.read == Bumped(init)[..s.main.k])
    && (s.main.MSet? || MainLate(s.main) ==> s.read == Bumped(init))
    && (!s.main.MRead? && !s.main.MSet? && !MainLate(s.main) ==> s.read == [])
  }

  predicate Inv(init: seq<int>, s: State) { LockInv(s) && PhaseInv(s) && ValueInv(init, s) }

  lemma StepKeepsPhases(init: seq<int>, s: State, a: Action)
    requires Inv(init, s) && Enabled(s, a)
    ensures LockInv(Do(init, s, a)) && PhaseInv(Do(init, s, a))
  {}

  lemma MainReadsValue(init: seq<int>, s: State)
    requires Inv(init, s) && s.main.MRead?
    ensures ValueInv(init, DoMain(init, s))
  {
    var k := s.main.k;
    if k < |init| {
      assert s.worker.WAsleep? || s.worker.WWoken?;
      assert Bumped(init)[..k + 1] == Bumped(init)[..k] + [Bumped(init)[k]];
    } else {
      assert Bumped(init)[..k] == Bumped(init);
    }
  }

  lemma MainKeepsValues(init: seq<int>, s: State)
    requires Inv(init, s) && Enabled(s, MainStep)
    ensures ValueInv(init, DoMain(init, s))
  {
    if s.main.MRead? {
      MainReadsValue(init, s);
    }
  }

  lemma WorkerKeepsValues(init: seq<int>, s: State)
    requires Inv(init, s) && Enabled(s, WorkerStep)
    ensures ValueInv(init, DoWorker(init, s))
  {}

  lemma StepKeepsValues(init: seq<int>, s: State, a: Action)
    requires Inv(init, s) && Enabled(s, a)
    ensures ValueInv(init, Do(init, s, a))
  {
    match a
    case MainStep => MainKeepsValues(init, s);
    case WorkerStep => WorkerKeepsValues(init, s);
    case WakeMain =>
    case WakeWorker =>
  }

  lemma {:induction false} RunKeepsInv(init: seq<int>, acts: seq<Action>)
    requires Run(init, acts).At?
    ensures Inv(init, Run(init, acts).s)
    decreases |acts|
  {
    if acts != [] {
      RunKeepsInv(init, acts[..|acts| - 1]);
      var s, a := Run(init, acts[..|acts| - 1]).s, acts[|acts| - 1];
      StepKeepsPhases(init, s, a);
      StepKeepsValues(init, s, a);
    }
  }

  // ---- safety ---------------------------------------------------------------------------------

  /** In every interleaving: the two threads are never both inside; main dereferences a thr_tls pointer
      only when it is set, the worker has bumped every variable and has not returned; and no check fails. */
  lemma HandshakeIsSafe(init: seq<int>, acts: seq<Action>)
    requires Run(init, acts).At?
    ensures var s := Run(init, acts).s;
      && !(MainHolds(s.main) && WorkerHolds(s.worker))
      && (s.main.MRead? ==>
            && (s.worker.WAsleep? || s.worker.WWoken?)
            && s.theirs == Bumped(init) && s.published == seq(|init|, _ => true))
      && s.mine == init && !s.main.MFailed?
      && (s.main.MSuccess? ==> s.read == Bumped(init))
  {
    RunKeepsInv(init, acts);
  }

  /** thread_done only ever moves from 0 to 1 and from 1 to 2, the first by the worker, the second by main. */
  lemma DoneMovesUp(init: seq<int>, acts: seq<Action>, a: Action)
    requires Run(init, acts + [a]).At?
    ensures Run(init, acts).At?
    ensures var s, n := Run(init, acts).s, Run(init, acts + [a]).s;
      && s.done <= n.done <= s.done + 1
      && (n.done != s.done ==> (a == WorkerStep && n.done == 1) || (a == MainStep && n.done == 2))
  {
    assert (acts + [a])[..|acts|] == acts;
    RunKeepsInv(init, acts);
  }

  // ---- liveness -------------------------------------------------------------------------------

  function MainRank(n: nat, m: MainAt): nat {
    match m
    case MCreate => n + 15
    case MAddresses => n + 14
    case MLock => n + 13
    case MWoken => n + 13
    case MTest => n + 12
    case MWait => n + 11
    case MAsleep => n + 10
    case MRead(k) => 9 + if k <= n then n - k else 0
    case MSet => 8
    case MBroadcast => 7
    case MUnlock => 2
    case MCheck => 1
    case MSuccess => 0
    case MFailed => 0
  }

  function WorkerRank(n: nat, w: WorkerAt): nat {
    match w
    case WUnborn => 11 + 2 * n
    case WPublish(k) => 11 + if k <= n then 2 * (n - k) else 0
    case WBump(k) => 10 + if k <= n then 2 * (n - k) else 0
    case WLock => 10
    case WSet => 9
    case WBroadcast => 8
    case WWoken => 5
    case WTest => 4
    case WWait => 3
    case WAsleep => 2
    case WUnlock => 1
    case WReturned => 0
  }

  function Rank(init: seq<int>, s: State): nat { MainRank(|init|, s.main) + WorkerRank(|init|, s.worker) }

  lemma MainRankDrops(init: seq<int>, s: State)
    requires Inv(init, s) && Enabled(s, MainStep)
    ensures Rank(init, DoMain(init, s)) < Rank(init, s)
  {}

  lemma WorkerRankDrops(init: seq<int>, s: State)
    requires Inv(init, s) && Enabled(s, WorkerStep)
    ensures Rank(init, DoWorker(init, s)) < Rank(init, s)
  {}

  lemma RankDrops(init: seq<int>, s: State, a: Action)
    requires Inv(init, s) && Enabled(s, a)
    ensures !Spurious(a) ==> Rank(init, Do(init, s, a)) < Rank(init, s)
    ensures Spurious(a) ==> Rank(init, Do(init, s, a)) == Rank(init, s) + 3
  {
    match a
    case MainStep => MainRankDrops(init, s);
    case WorkerStep => WorkerRankDrops(init, s);
    case WakeMain =>
    case WakeWorker =>
  }

  function SpuriousCount(acts: seq<Action>): nat {
    if acts == [] then 0
    else SpuriousCount(acts[..|acts| - 1]) + if Spurious(acts[|acts| - 1]) then 1 else 0
  }

  /** No run is longer than a bound that grows only with its spurious wakeups. */
  lemma {:induction false} RunsAreBounded(init: seq<int>, acts: seq<Action>)
    requires Run(init, acts).At?
    ensures |acts| + Rank(init, Run(init, acts).s) <= 26 + 3 * |init| + 4 * SpuriousCount(acts)
    decreases |acts|
  {
    if acts != [] {
      var p, a := acts[..|acts| - 1], acts[|acts| - 1];
      RunsAreBounded(init, p);
      RunKeepsInv(init, p);
      RankDrops(init, Run(init, p).s, a);
    }
  }

  lemma OwnerCases(o: Owner)
    ensures o == Free || o == Held(Main) || o == Held(Worker)
  {
    match o
    case Free =>
    case Held(t) =>
      match t
      case Main =>
      case Worker =>
  }

  /** No deadlock and no lost wakeup: as long as a thread has work left, a step that needs no spurious
      wakeup is enabled; so a run that can go no further has main successful and the worker returned. */
  lemma StuckOnlyAtTheEnd(init: seq<int>, acts: seq<Action>)
    requires Run(init, acts).At?
    ensures var s := Run(init, acts).s;
      (!Enabled(s, MainStep) && !Enabled(s, WorkerStep)) <==> (s.main.MSuccess? && s.worker.WReturned?)
  {
    RunKeepsInv(init, acts);
    var s := Run(init, acts).s;
    OwnerCases(s.lock);
  }

  /** One more step of a run that is not over. */
  lemma StepOn(init: seq<int>, acts: seq<Action>) returns (a: Action)
    requires Run(init, acts).At? && !Over(Run(init, acts).s)
    ensures Run(init, acts + [a]).At? && !Spurious(a) && SpuriousCount(acts + [a]) == SpuriousCount(acts)
    ensures Rank(init, Run(init, acts + [a]).s) < Rank(init, Run(init, acts).s)
  {
    RunKeepsInv(init, acts);
    StuckOnlyAtTheEnd(init, acts);
    var s := Run(init, acts).s;
    a := if Enabled(s, MainStep) then MainStep else WorkerStep;
    RankDrops(init, s, a);
    assert (acts + [a])[..|acts|] == acts;
  }

  predicate Over(s: State) { s.main.MSuccess? && s.worker.WReturned? }

  /** The run acts, carried on by rest without spurious wakeups, ends well. */
  predicate EndsWell(init: seq<int>, acts: seq<Action>, rest: seq<Action>) {
    && Run(init, acts + rest).At? && SpuriousCount(acts + rest) == SpuriousCount(acts)
    && Over(Run(init, acts + rest).s) && Run(init, acts + rest).s.read == Bumped(init)
  }

  lemma EndsWellBefore(init: seq<int>, acts: seq<Action>, a: Action, more: seq<Action>)
    requires EndsWell(init, acts + [a], more) && SpuriousCount(acts + [a]) == SpuriousCount(acts)
    ensures EndsWell(init, acts, [a] + more)
  {
    assert acts + [a] + more == acts + ([a] + more);
  }

  /** Any run can be carried on, without spurious wakeups, to the successful end. */
  lemma {:induction false} EveryRunCanFinish(init: seq<int>, acts: seq<Action>) returns (rest: seq<Action>)
    requires Run(init, acts).At?
    ensures EndsWell(init, acts, rest)
    decreases Rank(init, Run(init, acts).s)
  {
    if Over(Run(init, acts).s) {
      HandshakeIsSafe(init, acts);
      rest := [];
      assert acts + rest == acts;
    } else {
      var a := StepOn(init, acts);
      var more := EveryRunCanFinish(init, acts + [a]);
      EndsWellBefore(init, acts, a, more);
      rest := [a] + more;
    }
  }
}
