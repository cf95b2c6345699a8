/** The child's side of a test: what the reporting functions and the signal handler leave in the page shared
    with the controller. */
module ChildReports {
  const TESTRESULT_UNKNOWN := 0
  const TESTRESULT_SUCCESS := 1
  const TESTRESULT_FAILURE := 2
  const TESTRESULT_STR_LEN: nat := 1024
  const EX_SOFTWARE := 70

  /** The page as the controller reads it; the message is the C string in its buffer. */
  datatype ChildState = ChildState(signum: int, siCode: int, siTrapno: int, siAddr: int, siAddrTag: bool,
                                   result: int, message: string, expected: int, expectedTag: bool, warn: bool)

  /** The page after bzero. */
  const ZEROED := ChildState(0, 0, 0, 0, false, TESTRESULT_UNKNOWN, "", 0, false, false)

  /** What a process of the test can write. All but the last end the process that does it. */
  datatype Event =
    | FailX(msg: string)
    | FailC(msg: string, strerror: string)
    | Succeed
    | SucceedWarn(msg: string)
    | Caught(signum: int, code: int, trapno: int, addr: int, tag: bool)
    | ExpectAddr(addr: int, tag: bool)

  predicate NoNul(s: string) { '\0' !in s }

  predicate Proper(e: Event) {
    match e
    case FailX(msg) => NoNul(msg)
    case FailC(msg, strerror) => NoNul(msg) && NoNul(strerror)
    case SucceedWarn(msg) => NoNul(msg)
    case _ => true
  }

  /** The status of a process that an event ends. */
  function ExitCode(e: Event): int { if e.Succeed? || e.SucceedWarn? then 0 else EX_SOFTWARE }

  /** What fits in the message buffer with its terminator. */
  function Fit(msg: string): string { if |msg| < TESTRESULT_STR_LEN then msg else msg[..TESTRESULT_STR_LEN - 1] }

  function Apply(s: ChildState, e: Event): ChildState {
    match e
    case FailX(msg) => s.(warn := false, result := TESTRESULT_FAILURE, message := Fit(msg))
    case FailC(msg, strerror) =>
      s.(warn := false, result := TESTRESULT_FAILURE, message := Fit(msg + ": " + strerror))
    case Succeed => s.(warn := false, result := TESTRESULT_SUCCESS)
    case SucceedWarn(msg) => s.(warn := true, result := TESTRESULT_SUCCESS, message := Fit(msg))
    case Caught(signum, code, trapno, addr, tag) =>
      s.(signum := signum, siCode := code, siTrapno := trapno, siAddr := addr, siAddrTag := tag)
    case ExpectAddr(addr, tag) => s.(expected := addr, expectedTag := tag)
  }

  /** The page after all the writes, in order. */
  function After(es: seq<Event>): ChildState {
    if es == [] then ZEROED else Apply(After(es[..|es| - 1]), es[|es| - 1])
  }

  // ---- C strings --------------------------------------------------------------------------------

  function CString(s: string): string { if s == [] || s[0] == '\0' then [] else [s[0]] + CString(s[1..]) }

  lemma {:induction false} CStringOf(text: string, rest: string)
    requires NoNul(text)
    ensures CString(text + ['\0'] + rest) == text
  {
    if text != [] {
      assert (text + ['\0'] + rest)[1..] == text[1..] + ['\0'] + rest;
      CStringOf(text[1..], rest);
    }
  }

  /** What snprintf to position at of a buffer leaves in it. */
  function Printed(buf: string, at: nat, text: string): string
    requires at < |buf|
  {
    var n := if |text| < |buf| - at then |text| else |buf| - at - 1;
    buf[..at] + text[..n] + ['\0'] + buf[at + n + 1..]
  }

  lemma PrintedFits(buf: string, text: string)
    requires |buf| == TESTRESULT_STR_LEN && NoNul(text)
    ensures CString(Printed(buf, 0, text)) == Fit(text)
  {
    var n := |Fit(text)|;
    assert Fit(text) == text[..n];
    assert buf[..0] + text[..n] == text[..n];
    CStringOf(text[..n], buf[n + 1..]);
  }

  /** Printing the message and then its cause behind it gives what one bounded print of both would. */
  lemma PrintedTwice(buf: string, msg: string, cause: string)
    requires |buf| == TESTRESULT_STR_LEN && |msg| < TESTRESULT_STR_LEN && NoNul(msg) && NoNul(cause)
    ensures CString(Printed(Printed(buf, 0, msg), |msg|, cause)) == Fit(msg + cause)
  {
    var once := Printed(buf, 0, msg);
    assert once[..|msg|] == msg;
    var n := |Fit(msg + cause)| - |msg|;
    assert Fit(msg + cause) == msg + cause[..n];
    CStringOf(msg + cause[..n], once[|msg| + n + 1..]);
  }

  lemma PaddedFits(buf: string, msg: string)
    requires |buf| == TESTRESULT_STR_LEN && NoNul(msg)
    requires forall j :: 0 <= j < |Fit(msg)| ==> buf[j] == msg[j]
    requires buf[|Fit(msg)|] == '\0'
    ensures CString(buf) == Fit(msg)
  {
    var n := |Fit(msg)|;
    assert buf == Fit(msg) + ['\0'] + buf[n + 1..];
    CStringOf(Fit(msg), buf[n + 1..]);
  }

  // ---- the page ---------------------------------------------------------------------------------

  class ChildPage {
    var signum: int
    var siCode: int
    var siTrapno: int
    var siAddr: int
    var siAddrTag: bool
    var testresult: int
    const testresultStr: array<char>
    var siAddrExpected: int
    var siAddrExpectedTag: bool
    var warn: bool

    ghost predicate Valid() { testresultStr.Length == TESTRESULT_STR_LEN }

    ghost function Abs(): ChildState
      reads this, testresultStr
    {
      ChildState(signum, siCode, siTrapno, siAddr, siAddrTag, testresult, CString(testresultStr[..]),
                 siAddrExpected, siAddrExpectedTag, warn)
    }

    constructor ()
      ensures Valid() && Abs() == ZEROED && fresh(testresultStr)
    {
      signum, siCode, siTrapno, siAddr, siAddrTag := 0, 0, 0, 0, false;
      testresult, siAddrExpected, siAddrExpectedTag, warn := TESTRESULT_UNKNOWN, 0, false, false;
      testresultStr := new char[TESTRESULT_STR_LEN](_ => '\0');
    }

    /** snprintf into the buffer from position at on; the length is that of the whole text. */
    method Print(at: nat, text: string) returns (len: nat)
      requires Valid() && at < TESTRESULT_STR_LEN
      modifies testresultStr
      ensures len == |text| && testresultStr[..] == Printed(old(testresultStr[..]), at, text)
    {
      var room := testresultStr.Length - at;
      var n := if |text| < room then |text| else room - 1;
      for i := 0 to n
        invariant forall j :: 0 <= j < testresultStr.Length ==>
          testresultStr[j] == if at <= j < at + i then text[j - at] else old(testresultStr[j])
      {
        testresultStr[at + i] := text[i];
      }
      testresultStr[at + n] := '\0';
      assert testresultStr[..] == Printed(old(testresultStr[..]), at, text);
      return |text|;
    }

    method FailureErrx(msg: string) returns (exit: int)
      requires Valid() && Proper(FailX(msg))
      modifies this, testresultStr
      ensures Abs() == Apply(old(Abs()), FailX(msg))
      ensures exit == EX_SOFTWARE == ExitCode(FailX(msg))
    {
      warn := false;
      testresult := TESTRESULT_FAILURE;
      PrintedFits(testresultStr[..], msg);
      var len := Print(0, msg);
      return EX_SOFTWARE;
    }

    /** The message and the text of an error number, in two prints. */
    method FailureErrc(msg: string, strerror: string) returns (exit: int)
      requires Valid() && Proper(FailC(msg, strerror))
      modifies this, testresultStr
      ensures Abs() == Apply(old(Abs()), FailC(msg, strerror))
      ensures exit == EX_SOFTWARE == ExitCode(FailC(msg, strerror))
    {
      warn := false;
      testresult := TESTRESULT_FAILURE;
      var buflen := TESTRESULT_STR_LEN;
      PrintedFits(testresultStr[..], msg);
      ghost var buf := testresultStr[..];
      var len := Print(0, msg);
      if len >= buflen {
        assert Fit(msg) == Fit(msg + ": " + strerror);
        return EX_SOFTWARE;
      }
      PrintedTwice(buf, msg, ": " + strerror);
      assert msg + (": " + strerror) == msg + ": " + strerror;
      len := Print(len, ": " + strerror);
      return EX_SOFTWARE;
    }

    method Success() returns (exit: int)
      requires Valid()
      modifies this
      ensures Abs() == Apply(old(Abs()), Succeed) && exit == 0 == ExitCode(Succeed)
    {
      testresult := TESTRESULT_SUCCESS;
      warn := false;
      return 0;
    }

    /** strncpy fills the rest of the buffer with zeros, or leaves no terminator. */
    method Strncpy(msg: string)
      requires Valid()
      modifies testresultStr
      ensures forall j :: 0 <= j < TESTRESULT_STR_LEN ==> testresultStr[j] == if j < |msg| then msg[j] else '\0'
    {
      for i := 0 to testresultStr.Length
        invariant forall j :: 0 <= j < i ==> testresultStr[j] == if j < |msg| then msg[j] else '\0'
      {
        testresultStr[i] := if i < |msg| then msg[i] else '\0';
      }
    }

    method SuccessWithWarn(msg: string) returns (exit: int)
      requires Valid() && Proper(SucceedWarn(msg))
      modifies this, testresultStr
      ensures Abs() == Apply(old(Abs()), SucceedWarn(msg)) && exit == 0 == ExitCode(SucceedWarn(msg))
    {
      Strncpy(msg);
      testresultStr[TESTRESULT_STR_LEN - 1] := '\0';
      PaddedFits(testresultStr[..], msg);
      warn := true;
      testresult := TESTRESULT_SUCCESS;
      return 0;
    }

    method SetExpectedSiAddr(addr: int, tag: bool)
      requires Valid()
      modifies this
      ensures Abs() == Apply(old(Abs()), ExpectAddr(addr, tag))
    {
      siAddrExpected := addr;
      siAddrExpectedTag := tag;
    }

    method SignalHandler(sig: int, code: int, trapno: int, addr: int, tag: bool) returns (exit: int)
      requires Valid()
      modifies this
      ensures Abs() == Apply(old(Abs()), Caught(sig, code, trapno, addr, tag))
      ensures exit == EX_SOFTWARE == ExitCode(Caught(sig, code, trapno, addr, tag))
    {
      signum := sig;
      siCode := code;
      siTrapno := trapno;
      siAddrTag := tag;
      siAddr := addr;
      return EX_SOFTWARE;
    }
  }
}
