/** How the controller judges a test by its child's wait status, the shared page and the output read. */
module Verdicts {
  import opened ChildReports
  import opened Wrappers

  datatype Flag = Signal | SiTrapno | StdoutString | StdinString | StdoutIgnore | Slow | SiCode | SigExit | SiAddr

  /** The fields of struct cheri_test that the judgement reads. */
  datatype Test = Test(name: string, flags: set<Flag>, signum: int, siCode: int, siTrapno: int,
                       stdinText: string, stdoutText: string)

  datatype Status = Exited(code: int) | Signaled(sig: int) | Stopped

  datatype Reason =
    | Reported(msg: string)
    | NotKilled(expected: int)
    | KilledOtherwise(expected: int, got: int)
    | Killed(sig: int)
    | Abnormal
    | BadStatus(code: int)
    | NegativeSignal(sig: int)
    | WrongSignal(expected: int, got: int)
    | WrongCode(expected: int, got: int)
    | WrongTrapno(expected: int, got: int)
    | WrongAddr(expected: int, expectedTag: bool, got: int, gotTag: bool)
    | UnexpectedSignal(sig: int)
    | NoResult
    | OddResult(result: int)
    | ReadFailed
    | WrongOutput(output: string)
    | UnexpectedOutput(output: string)
    | BadName(prefix: string)
    | StdinFailed
    | StdinShort(expected: int, got: int)

  /** Harness errors clear both reasons for expecting a failure. */
  predicate Fatal(r: Reason) { r.NoResult? || r.OddResult? }

  // ---- the chain of checks ----------------------------------------------------------------------

  /** The first check that fails: what the test says of itself, how its process ended, the signal it caught,
      whether it declared success, and its output. */
  function Fault(t: Test, c: ChildState, status: Status, out: Option<string>): Option<Reason> {
    if c.result == TESTRESULT_FAILURE then Some(Reported(c.message))
    else if SigExit in t.flags then
      match status
      case Signaled(sig) => if sig == t.signum then None else Some(KilledOtherwise(t.signum, sig))
      case _ => Some(NotKilled(t.signum))
    else
      match status
      case Signaled(sig) => Some(Killed(sig))
      case Stopped => Some(Abnormal)
      case Exited(code) =>
        if code != 0 && code != EX_SOFTWARE then Some(BadStatus(code))
        else
          match SignalFault(t, c)
          case Some(r) => Some(r)
          case None => OutputFault(t, out)
  }

  function SignalFault(t: Test, c: ChildState): Option<Reason> {
    if c.signum < 0 then Some(NegativeSignal(c.signum))
    else if Signal in t.flags && c.signum != t.signum then Some(WrongSignal(t.signum, c.signum))
    else if SiCode in t.flags && c.siCode != t.siCode then Some(WrongCode(t.siCode, c.siCode))
    else if SiTrapno in t.flags && c.siTrapno != t.siTrapno then Some(WrongTrapno(t.siTrapno, c.siTrapno))
    else if SiAddr in t.flags && (c.expected, c.expectedTag) != (c.siAddr, c.siAddrTag) then
      Some(WrongAddr(c.expected, c.expectedTag, c.siAddr, c.siAddrTag))
    else if Signal in t.flags then None
    else if c.signum != 0 then Some(UnexpectedSignal(c.signum))
    else if c.result == TESTRESULT_UNKNOWN then Some(NoResult)
    else if c.result != TESTRESULT_SUCCESS then Some(OddResult(c.result))
    else None
  }

  function OutputFault(t: Test, out: Option<string>): Option<Reason> {
    if StdoutString in t.flags then
      if out.None? then Some(ReadFailed)
      else if CString(out.value) != t.stdoutText then Some(WrongOutput(out.value))
      else None
    else if StdoutIgnore in t.flags || out.None? || out.value == [] then None
    else Some(UnexpectedOutput(out.value))
  }

  /** The checks up to the label pass, in the order of the program; out is what read() gives, or None for an
      error. No reason means pass. */
  method Judge(t: Test, c: ChildState, status: Status, out: Option<string>) returns (fault: Option<Reason>)
    ensures fault == Fault(t, c, status, out)
  {
    if c.result == TESTRESULT_FAILURE {
      return Some(Reported(c.message));
    }
    if SigExit in t.flags {
      if !status.Signaled? {
        return Some(NotKilled(t.signum));
      }
      if status.sig != t.signum {
        return Some(KilledOtherwise(t.signum, status.sig));
      }
      return None;
    }
    if status.Signaled? {
      return Some(Killed(status.sig));
    }
    if !status.Exited? {
      return Some(Abnormal);
    }
    if status.code != 0 && status.code != EX_SOFTWARE {
      return Some(BadStatus(status.code));
    }
    if c.signum < 0 {
      return Some(NegativeSignal(c.signum));
    }
    if Signal in t.flags && c.signum != t.signum {
      return Some(WrongSignal(t.signum, c.signum));
    }
    if SiCode in t.flags && c.siCode != t.siCode {
      return Some(WrongCode(t.siCode, c.siCode));
    }
    if SiTrapno in t.flags && c.siTrapno != t.siTrapno {
      return Some(WrongTrapno(t.siTrapno, c.siTrapno));
    }
    if SiAddr in t.flags && (c.expected != c.siAddr || c.expectedTag != c.siAddrTag) {
      return Some(WrongAddr(c.expected, c.expectedTag, c.siAddr, c.siAddrTag));
    }
    if Signal !in t.flags {
      if c.signum != 0 {
        return Some(UnexpectedSignal(c.signum));
      }
      if c.result == TESTRESULT_UNKNOWN {
        return Some(NoResult);
      }
      if c.result != TESTRESULT_SUCCESS {
        return Some(OddResult(c.result));
      }
    }
    if StdoutString in t.flags {
      if out.None? {
        return Some(ReadFailed);
      }
      if CString(out.value) != t.stdoutText {
        return Some(WrongOutput(out.value));
      }
    } else if StdoutIgnore !in t.flags {
      if out.Some? && |out.value| > 0 {
        return Some(UnexpectedOutput(out.value));
      }
    }
    return None;
  }

  predicate NormalEnd(t: Test, c: ChildState, status: Status) {
    SigExit !in t.flags && (status == Exited(0) || status == Exited(EX_SOFTWARE)) && c.signum >= 0
  }

  predicate SignalAsExpected(t: Test, c: ChildState) {
    && (Signal in t.flags ==> c.signum == t.signum)
    && (SiCode in t.flags ==> c.siCode == t.siCode)
    && (SiTrapno in t.flags ==> c.siTrapno == t.siTrapno)
    && (SiAddr in t.flags ==> c.siAddr == c.expected && c.siAddrTag == c.expectedTag)
  }

  predicate OutputAsExpected(t: Test, out: Option<string>) {
    && (StdoutString in t.flags ==> out.Some? && CString(out.value) == t.stdoutText)
    && (StdoutString !in t.flags && StdoutIgnore !in t.flags ==> out.None? || out.value == [])
  }

  /** When the chain gets to pass. */
  predicate Passes(t: Test, c: ChildState, status: Status, out: Option<string>) {
    && c.result != TESTRESULT_FAILURE
    && if SigExit in t.flags then status == Signaled(t.signum)
       else
         && NormalEnd(t, c, status) && SignalAsExpected(t, c) && OutputAsExpected(t, out)
         && (Signal !in t.flags ==> c.signum == 0 && c.result == TESTRESULT_SUCCESS)
  }

  /** The chain gets to pass exactly then; and it ends in a harness error exactly when a test that should not
      have faulted, and did not, ended without declaring anything. */
  lemma FaultExactly(t: Test, c: ChildState, status: Status, out: Option<string>)
    ensures Fault(t, c, status, out).None? <==> Passes(t, c, status, out)
    ensures Fault(t, c, status, out).Some? && Fatal(Fault(t, c, status, out).value) <==>
      && c.result != TESTRESULT_FAILURE && NormalEnd(t, c, status) && SignalAsExpected(t, c)
      && Signal !in t.flags && c.signum == 0 && c.result != TESTRESULT_SUCCESS
  {
    SignalPasses(t, c);
    OutputPasses(t, out);
  }

  /** The process ended as it should have, and caught no signal it should not have. */
  predicate SignalsJudged(t: Test, c: ChildState, status: Status) {
    NormalEnd(t, c, status) && c.result != TESTRESULT_FAILURE
  }

  predicate OutputJudged(t: Test, c: ChildState, status: Status) {
    && SignalsJudged(t, c, status) && SignalAsExpected(t, c)
    && (Signal !in t.flags ==> c.signum == 0 && c.result == TESTRESULT_SUCCESS)
  }

  /** When each reason is given, and with which values. */
  predicate Because(t: Test, c: ChildState, status: Status, out: Option<string>, r: Reason) {
    var unreported, exits := c.result != TESTRESULT_FAILURE, SigExit in t.flags;
    var judged := SignalsJudged(t, c, status);
    var signal := Signal in t.flags ==> c.signum == t.signum;
    var code := SiCode in t.flags ==> c.siCode == t.siCode;
    var trapno := SiTrapno in t.flags ==> c.siTrapno == t.siTrapno;
    var unsignalled := judged && SignalAsExpected(t, c) && Signal !in t.flags;
    match r
    case Reported(msg) => c.result == TESTRESULT_FAILURE && msg == c.message
    case NotKilled(e) => unreported && exits && !status.Signaled? && e == t.signum
    case KilledOtherwise(e, g) => unreported && exits && status == Signaled(g) && e == t.signum && g != e
    case Killed(sig) => unreported && !exits && status == Signaled(sig)
    case Abnormal => unreported && !exits && status == Stopped
    case BadStatus(k) => unreported && !exits && status == Exited(k) && k != 0 && k != EX_SOFTWARE
    case NegativeSignal(sig) =>
      unreported && !exits && (status == Exited(0) || status == Exited(EX_SOFTWARE)) && sig == c.signum < 0
    case WrongSignal(e, g) => judged && Signal in t.flags && e == t.signum && g == c.signum && g != e
    case WrongCode(e, g) => judged && signal && SiCode in t.flags && e == t.siCode && g == c.siCode && g != e
    case WrongTrapno(e, g) =>
      judged && signal && code && SiTrapno in t.flags && e == t.siTrapno && g == c.siTrapno && g != e
    case WrongAddr(e, etag, g, gtag) =>
      && judged && signal && code && trapno && SiAddr in t.flags
      && (e, etag) == (c.expected, c.expectedTag) && (g, gtag) == (c.siAddr, c.siAddrTag) && (g, gtag) != (e, etag)
    case UnexpectedSignal(sig) => unsignalled && sig == c.signum != 0
    case NoResult => unsignalled && c.signum == 0 && c.result == TESTRESULT_UNKNOWN
    case OddResult(k) =>
      unsignalled && c.signum == 0 && k == c.result && k != TESTRESULT_UNKNOWN && k != TESTRESULT_SUCCESS
    case ReadFailed => OutputJudged(t, c, status) && StdoutString in t.flags && out == None
    case WrongOutput(o) =>
      OutputJudged(t, c, status) && StdoutString in t.flags && out == Some(o) && CString(o) != t.stdoutText
    case UnexpectedOutput(o) =>
      && OutputJudged(t, c, status) && StdoutString !in t.flags && StdoutIgnore !in t.flags
      && out == Some(o) && o != []
    case _ => false
  }

  /** Every reason is given exactly when it holds: no two ever hold at once. */
  lemma ReasonExactly(t: Test, c: ChildState, status: Status, out: Option<string>, r: Reason)
    ensures Fault(t, c, status, out) == Some(r) <==> Because(t, c, status, out, r)
  {
    SignalPasses(t, c);
    OutputPasses(t, out);
  }

  lemma SignalPasses(t: Test, c: ChildState)
    ensures SignalFault(t, c).None? <==>
      && c.signum >= 0 && SignalAsExpected(t, c)
      && (Signal !in t.flags ==> c.signum == 0 && c.result == TESTRESULT_SUCCESS)
  {}

  lemma OutputPasses(t: Test, out: Option<string>)
    ensures OutputFault(t, out).None? <==> OutputAsExpected(t, out)
  {}

  // ---- whole runs of a child --------------------------------------------------------------------

  predicate IsReport(e: Event) { e.FailX? || e.FailC? || e.Succeed? || e.SucceedWarn? }

  /** The last report among the writes, if there is one. */
  function LastReport(es: seq<Event>): (r: Option<Event>)
    ensures r.Some? ==> IsReport(r.value)
  {
    if es == [] then None
    else if IsReport(es[|es| - 1]) then Some(es[|es| - 1])
    else LastReport(es[..|es| - 1])
  }

  /** The signal caught last. */
  function LastCaught(es: seq<Event>): (r: Option<Event>)
    ensures r.Some? ==> r.value.Caught?
  {
    if es == [] then None
    else if es[|es| - 1].Caught? then Some(es[|es| - 1])
    else LastCaught(es[..|es| - 1])
  }

  function ResultOf(report: Option<Event>): int {
    match report
    case None => TESTRESULT_UNKNOWN
    case Some(e) => if e.Succeed? || e.SucceedWarn? then TESTRESULT_SUCCESS else TESTRESULT_FAILURE
  }

  /** The text an event puts into the message buffer, before it is cut to fit. */
  function TextOf(e: Event): Option<string> {
    match e
    case FailX(msg) => Some(msg)
    case FailC(msg, strerror) => Some(msg + ": " + strerror)
    case SucceedWarn(msg) => Some(msg)
    case _ => None
  }

  function LastText(es: seq<Event>): string {
    if es == [] then ""
    else if TextOf(es[|es| - 1]).Some? then TextOf(es[|es| - 1]).value
    else LastText(es[..|es| - 1])
  }

  function LastExpected(es: seq<Event>): (int, bool) {
    if es == [] then (0, false)
    else if es[|es| - 1].ExpectAddr? then (es[|es| - 1].addr, es[|es| - 1].tag)
    else LastExpected(es[..|es| - 1])
  }

  /** What is cut off is what the buffer has no room for beside its terminator. */
  lemma FitIsPrefix(msg: string)
    ensures Fit(msg) <= msg && |Fit(msg)| <= 1023 && (Fit(msg) == msg || |Fit(msg)| == 1023)
  {}

  /** The page holds the last report, the last message, the last signal and the last address expected. */
  lemma AfterIsLast(es: seq<Event>)
    ensures var c := After(es);
      && c.result == ResultOf(LastReport(es))
      && (c.warn <==> LastReport(es).Some? && LastReport(es).value.SucceedWarn?)
      && c.message == Fit(LastText(es)) && (c.expected, c.expectedTag) == LastExpected(es)
      && (LastCaught(es).None? ==> c.signum == 0)
      && (LastCaught(es).Some? ==>
            LastCaught(es).value == Caught(c.signum, c.siCode, c.siTrapno, c.siAddr, c.siAddrTag))
  {
    ReportIsLast(es);
    TextIsLast(es);
    SignalIsLast(es);
  }

  lemma {:induction false} ReportIsLast(es: seq<Event>)
    ensures var c := After(es);
      && c.result == ResultOf(LastReport(es))
      && (c.warn <==> LastReport(es).Some? && LastReport(es).value.SucceedWarn?)
    decreases |es|
  {
    if es != [] {
      ReportIsLast(es[..|es| - 1]);
    }
  }

  lemma {:induction false} TextIsLast(es: seq<Event>)
    ensures var c := After(es); c.message == Fit(LastText(es)) && (c.expected, c.expectedTag) == LastExpected(es)
    decreases |es|
  {
    if es != [] {
      TextIsLast(es[..|es| - 1]);
    }
  }

  lemma {:induction false} SignalIsLast(es: seq<Event>)
    ensures var c := After(es);
      && (LastCaught(es).None? ==> c.signum == 0)
      && (LastCaught(es).Some? ==>
            LastCaught(es).value == Caught(c.signum, c.siCode, c.siTrapno, c.siAddr, c.siAddrTag))
    decreases |es|
  {
    if es != [] {
      SignalIsLast(es[..|es| - 1]);
    }
  }

  lemma {:induction false} NoneIsNone(es: seq<Event>)
    ensures LastCaught(es).Some? ==> LastCaught(es).value in es && LastCaught(es).value.Caught?
    ensures LastCaught(es).None? ==> forall e :: e in es ==> !e.Caught?
    decreases |es|
  {
    if es != [] {
      NoneIsNone(es[..|es| - 1]);
      assert es == es[..|es| - 1] + [es[|es| - 1]];
    }
  }

  /** Whatever the processes of a test write and however it ends, a pass means that the last report was not a
      failure; and where no signal is expected, that it was a success and no signal was caught. */
  lemma PassMeansReported(t: Test, es: seq<Event>, status: Status, out: Option<string>)
    requires Fault(t, After(es), status, out).None?
    requires forall e :: e in es && e.Caught? ==> e.signum != 0
    ensures var last := LastReport(es);
      && (last.Some? ==> last.value.Succeed? || last.value.SucceedWarn?)
      && (Signal !in t.flags && SigExit !in t.flags ==> last.Some? && forall e :: e in es ==> !e.Caught?)
  {
    FaultExactly(t, After(es), status, out);
    AfterIsLast(es);
    NoneIsNone(es);
  }

  // ---- runs of a single process -----------------------------------------------------------------

  /** How a process of a test ends: by a call or a caught signal that writes to the page, by exit() or by
      returning from the test function (code 0), by an uncaught signal, or in some other way. */
  datatype Ending = Writes(e: Event) | Exits(code: int) | Dies(sig: int) | Vanishes

  /** A run: the addresses it said to expect, and its end. */
  datatype Run = Run(expected: seq<(int, bool)>, end: Ending)

  predicate ProperRun(r: Run) { r.end.Writes? ==> !r.end.e.ExpectAddr? }

  function Expectations(xs: seq<(int, bool)>): seq<Event> {
    if xs == [] then [] else Expectations(xs[..|xs| - 1]) + [ExpectAddr(xs[|xs| - 1].0, xs[|xs| - 1].1)]
  }

  function EventsOf(r: Run): seq<Event> {
    if r.end.Writes? then Expectations(r.expected) + [r.end.e] else Expectations(r.expected)
  }

  function StatusOf(r: Run): Status {
    match r.end
    case Writes(e) => Exited(ExitCode(e))
    case Exits(code) => Exited(code)
    case Dies(sig) => Signaled(sig)
    case Vanishes => Stopped
  }

  /** The address expected in the end: the last one set, or a null pointer. */
  function ExpectedAddr(xs: seq<(int, bool)>): (int, bool) { if xs == [] then (0, false) else xs[|xs| - 1] }

  lemma {:induction false} OnlyExpectations(xs: seq<(int, bool)>)
    ensures After(Expectations(xs)) == ZEROED.(expected := ExpectedAddr(xs).0, expectedTag := ExpectedAddr(xs).1)
    decreases |xs|
  {
    if xs != [] {
      OnlyExpectations(xs[..|xs| - 1]);
      AfterOne(Expectations(xs[..|xs| - 1]), ExpectAddr(xs[|xs| - 1].0, xs[|xs| - 1].1));
    }
  }

  lemma AfterOne(es: seq<Event>, e: Event)
    ensures After(es + [e]) == Apply(After(es), e)
  {
    assert (es + [e])[..|es|] == es;
  }

  /** The checks of the signal where none was caught. */
  predicate NoSignalIsExpected(t: Test, expected: (int, bool)) {
    && (Signal in t.flags ==> t.signum == 0)
    && (SiCode in t.flags ==> t.siCode == 0)
    && (SiTrapno in t.flags ==> t.siTrapno == 0)
    && (SiAddr in t.flags ==> expected == (0, false))
  }

  predicate CaughtIsExpected(t: Test, e: Event, expected: (int, bool))
    requires e.Caught?
  {
    && Signal in t.flags && e.signum == t.signum && e.signum >= 0
    && (SiCode in t.flags ==> e.code == t.siCode)
    && (SiTrapno in t.flags ==> e.trapno == t.siTrapno)
    && (SiAddr in t.flags ==> (e.addr, e.tag) == expected)
  }

  /** The ends that let a test pass: a reported failure never, a declared success where no signal is expected, a
      caught signal where just that one is, a death where just that one is. */
  predicate PassingEnd(t: Test, expected: (int, bool), end: Ending) {
    match end
    case Dies(sig) => SigExit in t.flags && sig == t.signum
    case Vanishes => false
    case Exits(code) =>
      && SigExit !in t.flags && (code == 0 || code == EX_SOFTWARE)
      && Signal in t.flags && NoSignalIsExpected(t, expected)
    case Writes(e) =>
      && SigExit !in t.flags
      && if e.Caught? then CaughtIsExpected(t, e, expected)
         else (e.Succeed? || e.SucceedWarn?) && NoSignalIsExpected(t, expected)
  }

  /** What the page holds after a run of a single process. */
  lemma PageOfRun(r: Run)
    ensures var x := ExpectedAddr(r.expected);
      var quiet := ZEROED.(expected := x.0, expectedTag := x.1);
      After(EventsOf(r)) == if r.end.Writes? then Apply(quiet, r.end.e) else quiet
  {
    OnlyExpectations(r.expected);
    if r.end.Writes? {
      AfterOne(Expectations(r.expected), r.end.e);
    }
  }

  lemma QuietPasses(t: Test, x: (int, bool), end: Ending, out: Option<string>)
    requires !end.Writes?
    ensures Passes(t, ZEROED.(expected := x.0, expectedTag := x.1), StatusOf(Run([], end)), out) <==>
      PassingEnd(t, x, end) && (SigExit in t.flags || OutputAsExpected(t, out))
  {}

  lemma WritesPasses(t: Test, x: (int, bool), e: Event, out: Option<string>)
    requires !e.ExpectAddr?
    ensures Passes(t, Apply(ZEROED.(expected := x.0, expectedTag := x.1), e), StatusOf(Run([], Writes(e))), out) <==>
      PassingEnd(t, x, Writes(e)) && (SigExit in t.flags || OutputAsExpected(t, out))
  {}

  /** For every run of a single process, the controller's verdict on what the child's functions left behind. */
  lemma RunPassesExactly(t: Test, r: Run, out: Option<string>)
    requires ProperRun(r)
    ensures Fault(t, After(EventsOf(r)), StatusOf(r), out).None? <==>
      PassingEnd(t, ExpectedAddr(r.expected), r.end) && (SigExit in t.flags || OutputAsExpected(t, out))
  {
    FaultExactly(t, After(EventsOf(r)), StatusOf(r), out);
    PageOfRun(r);
    if r.end.Writes? {
      WritesPasses(t, ExpectedAddr(r.expected), r.end.e, out);
    } else {
      QuietPasses(t, ExpectedAddr(r.expected), r.end, out);
    }
  }

  /** Whatever is expected of a test, the reason for a failure it reports is the message its process gave, with its
      cause, cut to what the page holds. */
  lemma FailureIsTold(t: Test, r: Run, out: Option<string>)
    requires r.end.Writes? && (r.end.e.FailX? || r.end.e.FailC?)
    ensures var msg := if r.end.e.FailX? then r.end.e.msg else r.end.e.msg + ": " + r.end.e.strerror;
      Fault(t, After(EventsOf(r)), StatusOf(r), out) == Some(Reported(if |msg| <= 1023 then msg else msg[..1023]))
  {
    AfterOne(Expectations(r.expected), r.end.e);
  }

  /** The reason where a process of a test has reported nothing: the signal or the status it ended by. */
  lemma EndIsTold(t: Test, r: Run, out: Option<string>)
    requires !r.end.Writes?
    ensures var f := Fault(t, After(EventsOf(r)), StatusOf(r), out);
      match r.end
      case Dies(sig) =>
        f == if SigExit !in t.flags then Some(Killed(sig))
             else if sig != t.signum then Some(KilledOtherwise(t.signum, sig))
             else None
      case Vanishes => f == Some(if SigExit in t.flags then NotKilled(t.signum) else Abnormal)
      case Exits(code) =>
        && (SigExit in t.flags ==> f == Some(NotKilled(t.signum)))
        && (SigExit !in t.flags && code != 0 && code != EX_SOFTWARE ==> f == Some(BadStatus(code)))
        && (t.flags == {} && (code == 0 || code == EX_SOFTWARE) ==> f == Some(NoResult))
  {
    PageOfRun(r);
  }
}
