/** The driver of the revocation tests: an arena of capabilities to themselves is painted chunk by chunk,
    revoked, checked and put back, against a revoker that revokes exactly what is painted. */
module Revocation {
  datatype Cap = Cap(target: nat, live: bool)

  /** The arena, its part of the shadow bitmap (one bit for each 16-byte slot), and whether a revocation epoch
      has been opened and not closed. */
  datatype State = State(caps: seq<Cap>, shadow: seq<bool>, open: bool)

  datatype Mode = Once | Split | SplitInit | SplitFini

  datatype Verdict = Passed | Collision | WronglyRevoked | Unrevoked

  datatype Chunk = Chunk(from: nat, size: nat)

  datatype Outcome = Outcome(state: State, verdict: Verdict, chunks: seq<Chunk>)

  // ---- what the calls do ------------------------------------------------------------------------

  predicate Sized(s: State) { |s.caps| == |s.shadow| }

  predicate In(i: int, c: Chunk) { c.from <= i < c.from + c.size }

  predicate Fits(s: State, c: Chunk) { Sized(s) && c.from + c.size <= |s.caps| }

  predicate Collides(s: State, c: Chunk)
    requires Fits(s, c)
  {
    exists i :: c.from <= i < c.from + c.size && s.shadow[i]
  }

  function Painted(s: State, c: Chunk, bit: bool): (t: State)
    requires Fits(s, c)
    ensures Fits(t, c) && |t.caps| == |s.caps|
  {
    s.(shadow := seq(|s.shadow|, i requires 0 <= i < |s.shadow| => if In(i, c) then bit else s.shadow[i]))
  }

  predicate Marked(shadow: seq<bool>, a: nat) { a < |shadow| && shadow[a] }

  /** The exact revoker: after the call every live capability to a painted slot is dead, and no other. */
  function Revoked(s: State, last: bool): (t: State)
    ensures |t.caps| == |s.caps| && t.shadow == s.shadow
  {
    State(seq(|s.caps|, i requires 0 <= i < |s.caps| =>
                s.caps[i].(live := s.caps[i].live && !Marked(s.shadow, s.caps[i].target))),
          s.shadow, !last)
  }

  function Restored(s: State, c: Chunk): (t: State)
    requires Fits(s, c)
    ensures Fits(t, c) && |t.caps| == |s.caps|
  {
    s.(caps := seq(|s.caps|, i requires 0 <= i < |s.caps| => if In(i, c) then Cap(i, true) else s.caps[i]))
  }

  predicate LiveOutside(s: State, c: Chunk) { forall i :: 0 <= i < |s.caps| && !In(i, c) ==> s.caps[i].live }

  predicate DeadInside(s: State, c: Chunk)
    requires Fits(s, c)
  {
    forall i :: c.from <= i < c.from + c.size ==> !s.caps[i].live
  }

  function Checked(s: State, c: Chunk, paranoia: int): Verdict
    requires Fits(s, c)
  {
    if paranoia > 1 && !LiveOutside(s, c) then WronglyRevoked
    else if paranoia > 0 && !DeadInside(s, c) then Unrevoked
    else Passed
  }

  /** What each level of paranoia looks at. */
  lemma CheckedExactly(t: State, c: Chunk, paranoia: int)
    requires Fits(t, c)
    ensures Checked(t, c, paranoia) == WronglyRevoked <==>
      paranoia >= 2 && exists i :: 0 <= i < |t.caps| && !In(i, c) && !t.caps[i].live
    ensures Checked(t, c, paranoia) == Passed <==>
      forall i :: 0 <= i < |t.caps| ==>
        if In(i, c) then paranoia >= 1 ==> !t.caps[i].live else paranoia >= 2 ==> t.caps[i].live
    ensures Checked(t, c, paranoia) != Collision
  {}

  /** What the checks are for: with full paranoia, and everything live before, a revoker passes them exactly when it
      leaves alive what the exact one leaves alive. */
  lemma CheckDetectsExactly(s: State, c: Chunk, t: State, last: bool)
    requires Pristine(s) && Fits(s, c) && Fits(t, c) && |t.caps| == |s.caps|
    ensures Checked(t, c, 2) == Passed <==>
      forall i :: 0 <= i < |s.caps| ==> t.caps[i].live == Revoked(Painted(s, c, true), last).caps[i].live
  {
    CheckedExactly(t, c, 2);
    var r := Revoked(Painted(s, c, true), last);
    assert forall i :: 0 <= i < |s.caps| ==> r.caps[i].live == !In(i, c);
  }

  // ---- one run of the driver --------------------------------------------------------------------

  type Size = n: nat | n > 0 witness 1

  /** The size of the next chunk, with so many slots left and draw number i of rand(). */
  function Sizes(mode: Mode, rand: nat -> nat): (Size, nat) -> Size {
    if mode.SplitInit? || mode.SplitFini? then (left, i) => left
    else (left, i) => if rand(i) % 1024 + 1 < left then rand(i) % 1024 + 1 else left
  }

  /** Closing the epoch where the mode has left it open, clearing the paint and putting everything back. */
  function Finished(s: State, c: Chunk, mode: Mode): (t: State)
    requires Fits(s, c)
    ensures Fits(t, c) && |t.caps| == |s.caps|
  {
    var closed := if mode.Once? then s else Revoked(s, true);
    Restored(Painted(closed, c, false), c)
  }

  datatype Turn = Halt(verdict: Verdict, state: State) | Go(state: State)

  /** One turn of the loop over chunk c. */
  function TurnOf(s: State, mode: Mode, paranoia: int, c: Chunk): (t: Turn)
    requires Fits(s, c)
    ensures Fits(t.state, c) && |t.state.caps| == |s.caps|
  {
    if mode.SplitFini? then Go(Finished(s, c, mode))
    else if Collides(s, c) then Halt(Collision, s)
    else
      var t := Revoked(Painted(s, c, true), mode.Once?);
      var v := Checked(t, c, paranoia);
      if v != Passed || mode.SplitInit? then Halt(v, t) else Go(Finished(t, c, mode))
  }

  function Turns(mode: Mode, paranoia: int): (State, Chunk) -> Turn {
    (s, c) => if Fits(s, c) then TurnOf(s, mode, paranoia, c) else Halt(Collision, s)
  }

  /** The loop over n slots from off on, for any body and any choice of sizes. */
  function Loop(turn: (State, Chunk) -> Turn, size: (Size, nat) -> Size, n: nat, s: State, off: nat, draws: nat)
    : Outcome
    decreases n - off
  {
    if off >= n then Outcome(s, Passed, [])
    else
      var c := Chunk(off, size(n - off, draws));
      match turn(s, c)
      case Halt(v, t) => Outcome(t, v, [c])
      case Go(t) => Then(c, Loop(turn, size, n, t, off + c.size, draws + 1))
  }

  function Then(c: Chunk, r: Outcome): Outcome { r.(chunks := [c] + r.chunks) }

  function Run(s: State, mode: Mode, paranoia: int, rand: nat -> nat): Outcome {
    Loop(Turns(mode, paranoia), Sizes(mode, rand), |s.caps|, s, 0, 0)
  }

  /** Sizes that do not pass the end. */
  ghost predicate Within(size: (Size, nat) -> Size) { forall left, i :: size(left, i) <= left }

  // ---- the arena between runs -------------------------------------------------------------------

  /** Every slot points to itself, dead or alive. */
  predicate SelfReferential(s: State) { Sized(s) && forall i :: 0 <= i < |s.caps| ==> s.caps[i].target == i }

  predicate ShadowClear(s: State) { forall i :: 0 <= i < |s.shadow| ==> !s.shadow[i] }

  /** As initialised: nothing painted, every slot holding a live capability to itself. */
  predicate Pristine(s: State) {
    && Sized(s) && !s.open && ShadowClear(s)
    && forall i :: 0 <= i < |s.caps| ==> s.caps[i] == Cap(i, true)
  }

  /** Between the two halves of a split revocation: everything painted and dead, the epoch open. */
  predicate Opened(s: State) {
    && Sized(s) && s.open
    && forall i :: 0 <= i < |s.caps| ==> s.caps[i] == Cap(i, false) && s.shadow[i]
  }

  /** Slots below off have been through the loop. */
  predicate Done(s: State, off: nat) {
    SelfReferential(s) && forall i :: 0 <= i < off && i < |s.caps| ==> s.caps[i].live && !s.shadow[i]
  }

  /** What one turn of the loop in the modes Once and Split does to each slot. */
  ghost predicate TurnEffect(s: State, c: Chunk, u: State)
    requires Sized(s) && Fits(u, c)
  {
    && |u.caps| == |s.caps| && SelfReferential(u) && !u.open
    && (forall i :: 0 <= i < |s.caps| ==> u.shadow[i] == (!In(i, c) && s.shadow[i]))
    && (forall i :: 0 <= i < |s.caps| ==> u.caps[i].live == (In(i, c) || (s.caps[i].live && !s.shadow[i])))
  }

  predicate ClearOutside(s: State, c: Chunk) { forall i :: 0 <= i < |s.shadow| && !In(i, c) ==> !s.shadow[i] }

  lemma TurnChecks(s: State, mode: Mode, c: Chunk, paranoia: int)
    requires SelfReferential(s) && Fits(s, c) && !Collides(s, c)
    ensures var t := Revoked(Painted(s, c, true), mode.Once?);
      Checked(t, c, paranoia) ==
      if paranoia > 1 && !(LiveOutside(s, c) && ClearOutside(s, c)) then WronglyRevoked else Passed
  {
    var t := Revoked(Painted(s, c, true), mode.Once?);
    assert forall i :: 0 <= i < |s.caps| ==> t.caps[i] == Cap(i, s.caps[i].live && !(In(i, c) || s.shadow[i]));
  }

  lemma TurnEnds(s: State, mode: Mode, c: Chunk)
    requires SelfReferential(s) && Fits(s, c) && (mode.Once? || mode.Split?)
    ensures TurnEffect(s, c, Finished(Revoked(Painted(s, c, true), mode.Once?), c, mode))
  {
    var t := Revoked(Painted(s, c, true), mode.Once?);
    assert forall i :: 0 <= i < |s.caps| ==> t.caps[i] == Cap(i, s.caps[i].live && !(In(i, c) || s.shadow[i]));
    var v := if mode.Once? then t else Revoked(t, true);
    assert forall i :: 0 <= i < |s.caps| ==> v.caps[i] == t.caps[i] && v.shadow[i] == t.shadow[i];
  }

  predicate Survives(s: State, c: Chunk, paranoia: int)
    requires Fits(s, c)
  {
    !Collides(s, c) && (paranoia > 1 ==> LiveOutside(s, c) && ClearOutside(s, c))
  }

  /** A loop body that survives exactly that, with that effect. */
  ghost predicate Exact(turn: (State, Chunk) -> Turn, paranoia: int) {
    forall s, c {:trigger turn(s, c)} | SelfReferential(s) && Fits(s, c) ::
      var t := turn(s, c);
      && (t.Go? <==> Survives(s, c, paranoia))
      && (t.Go? ==> Fits(t.state, c) && TurnEffect(s, c, t.state))
      && (t.Halt? ==> t.verdict == if Collides(s, c) then Collision else WronglyRevoked)
  }

  lemma TurnsExact(mode: Mode, paranoia: int)
    requires mode.Once? || mode.Split?
    ensures Exact(Turns(mode, paranoia), paranoia)
  {
    forall s, c | SelfReferential(s) && Fits(s, c)
      ensures var t := Turns(mode, paranoia)(s, c);
        && (t.Go? <==> Survives(s, c, paranoia))
        && (t.Go? ==> Fits(t.state, c) && TurnEffect(s, c, t.state))
        && (t.Halt? ==> t.verdict == if Collides(s, c) then Collision else WronglyRevoked)
    {
      if !Collides(s, c) {
        TurnChecks(s, mode, c, paranoia);
        TurnEnds(s, mode, c);
      }
    }
  }

  predicate PassesFrom(s: State, c: Chunk, paranoia: int) {
    ShadowClear(s) && (paranoia > 1 ==> LiveOutside(s, c))
  }

  /** The driver comes to a painted slot before anything else is found wrong. */
  predicate CollidesFrom(s: State, c: Chunk, paranoia: int)
    requires Fits(s, c)
  {
    Collides(s, c) || (paranoia <= 1 && !ShadowClear(s))
  }

  /** If a turn is survived, the chunk after it decides as the chunk before it did. */
  lemma TurnDecides(s: State, c: Chunk, u: State, d: Chunk, paranoia: int)
    requires Done(s, c.from) && Fits(s, c) && Survives(s, c, paranoia) && Fits(u, c) && TurnEffect(s, c, u)
    ensures PassesFrom(s, c, paranoia) == PassesFrom(u, d, paranoia)
    ensures Fits(u, d) ==> CollidesFrom(s, c, paranoia) == CollidesFrom(u, d, paranoia)
  {
    if !ShadowClear(s) {
      var i :| 0 <= i < |s.shadow| && s.shadow[i];
      assert u.shadow[i];
    }
  }

  /** r is how the loop ends that comes to chunk c in state s. */
  ghost predicate Decided(s: State, c: Chunk, paranoia: int, r: Outcome) {
    && (r.verdict == Passed <==> PassesFrom(s, c, paranoia))
    && (r.verdict == Passed ==> Pristine(r.state) && |r.state.caps| == |s.caps|)
    && (r.verdict == Collision <==> Fits(s, c) && CollidesFrom(s, c, paranoia))
    && r.verdict != Unrevoked
  }

  /** The next turn, in the terms of Exact. */
  lemma ExactTurn(turn: (State, Chunk) -> Turn, paranoia: int, s: State, c: Chunk)
    requires Exact(turn, paranoia) && SelfReferential(s) && Fits(s, c)
    ensures var t := turn(s, c);
      && (t.Go? <==> Survives(s, c, paranoia))
      && (t.Go? ==> Fits(t.state, c) && TurnEffect(s, c, t.state))
      && (t.Halt? ==> t.verdict == if Collides(s, c) then Collision else WronglyRevoked)
  {}

  lemma HaltDecides(turn: (State, Chunk) -> Turn, paranoia: int, size: (Size, nat) -> Size, s: State, c: Chunk,
      draws: nat)
    requires c.from < |s.caps| && c.size == size(|s.caps| - c.from, draws) && Fits(s, c)
    requires turn(s, c).Halt? && !Survives(s, c, paranoia)
    requires turn(s, c).verdict == if Collides(s, c) then Collision else WronglyRevoked
    ensures Decided(s, c, paranoia, Loop(turn, size, |s.caps|, s, c.from, draws))
  {
    NotSurvived(s, c, paranoia);
  }

  lemma LastDecides(turn: (State, Chunk) -> Turn, paranoia: int, size: (Size, nat) -> Size, s: State, c: Chunk,
      draws: nat, u: State)
    requires c.from < |s.caps| && c.size == size(|s.caps| - c.from, draws) && c.from + c.size == |s.caps|
    requires turn(s, c) == Go(u) && Done(s, c.from) && Fits(s, c) && Survives(s, c, paranoia)
    requires Fits(u, c) && TurnEffect(s, c, u)
    ensures Decided(s, c, paranoia, Loop(turn, size, |s.caps|, s, c.from, draws))
  {
    var rest := Loop(turn, size, |s.caps|, u, |s.caps|, draws + 1);
    assert rest == Outcome(u, Passed, []);
    DecidedAtEnd(s, c, u, paranoia, rest);
  }

  lemma NextDecides(turn: (State, Chunk) -> Turn, paranoia: int, size: (Size, nat) -> Size, s: State, c: Chunk,
      draws: nat, u: State, d: Chunk)
    requires c.from < |s.caps| && c.size == size(|s.caps| - c.from, draws)
    requires turn(s, c) == Go(u) && Done(s, c.from) && Fits(s, c) && Survives(s, c, paranoia)
    requires Fits(u, c) && TurnEffect(s, c, u)
    requires Fits(u, d) && Decided(u, d, paranoia, Loop(turn, size, |s.caps|, u, c.from + c.size, draws + 1))
    ensures Decided(s, c, paranoia, Loop(turn, size, |s.caps|, s, c.from, draws))
  {
    DecidedBefore(s, c, u, d, paranoia, Loop(turn, size, |s.caps|, u, c.from + c.size, draws + 1));
  }

  /** Such a loop passes from off on exactly when nothing is painted and, where the surroundings are checked,
      every slot outside the next chunk is live. */
  lemma {:induction false} LoopPassesExactly(turn: (State, Chunk) -> Turn, paranoia: int, size: (Size, nat) -> Size,
      s: State, c: Chunk, draws: nat)
    requires Exact(turn, paranoia) && Within(size) && Done(s, c.from)
    requires c.from < |s.caps| && c.size == size(|s.caps| - c.from, draws)
    ensures Decided(s, c, paranoia, Loop(turn, size, |s.caps|, s, c.from, draws))
    decreases |s.caps| - c.from, 1
  {
    ExactTurn(turn, paranoia, s, c);
    match turn(s, c) {
      case Halt(_, _) => HaltDecides(turn, paranoia, size, s, c, draws);
      case Go(u) => GoDecides(turn, paranoia, size, s, c, draws, u);
    }
  }

  lemma {:induction false} GoDecides(turn: (State, Chunk) -> Turn, paranoia: int, size: (Size, nat) -> Size, s: State,
      c: Chunk, draws: nat, u: State)
    requires Exact(turn, paranoia) && Within(size) && Done(s, c.from)
    requires c.from < |s.caps| && c.size == size(|s.caps| - c.from, draws)
    requires turn(s, c) == Go(u) && Fits(s, c) && Survives(s, c, paranoia) && Fits(u, c) && TurnEffect(s, c, u)
    ensures Decided(s, c, paranoia, Loop(turn, size, |s.caps|, s, c.from, draws))
    decreases |s.caps| - c.from, 0
  {
    var next := c.from + c.size;
    if next < |s.caps| {
      var d := Chunk(next, size(|s.caps| - next, draws + 1));
      TurnDone(s, c, u);
      LoopPassesExactly(turn, paranoia, size, u, d, draws + 1);
      NextDecides(turn, paranoia, size, s, c, draws, u, d);
    } else {
      LastDecides(turn, paranoia, size, s, c, draws, u);
    }
  }

  lemma TurnDone(s: State, c: Chunk, u: State)
    requires Done(s, c.from) && Fits(s, c) && !Collides(s, c) && Fits(u, c) && TurnEffect(s, c, u)
    ensures Done(u, c.from + c.size)
  {}

  lemma DecidedBefore(s: State, c: Chunk, u: State, d: Chunk, paranoia: int, rest: Outcome)
    requires Done(s, c.from) && Fits(s, c) && Survives(s, c, paranoia) && Fits(u, c) && TurnEffect(s, c, u)
    requires Fits(u, d) && Decided(u, d, paranoia, rest)
    ensures Decided(s, c, paranoia, Then(c, rest))
  {
    TurnDecides(s, c, u, d, paranoia);
  }

  lemma DecidedAtEnd(s: State, c: Chunk, u: State, paranoia: int, rest: Outcome)
    requires Done(s, c.from) && Fits(s, c) && c.from + c.size == |s.caps| && Survives(s, c, paranoia)
    requires Fits(u, c) && TurnEffect(s, c, u) && rest == Outcome(u, Passed, [])
    ensures Decided(s, c, paranoia, Then(c, rest))
  {
    LastTurn(s, c, u);
    PassesAtEnd(s, c, paranoia);
  }

  lemma NotSurvived(s: State, c: Chunk, paranoia: int)
    requires Fits(s, c) && !Survives(s, c, paranoia)
    ensures !PassesFrom(s, c, paranoia)
  {
    if Collides(s, c) {
      var i :| c.from <= i < c.from + c.size && s.shadow[i];
    }
  }

  lemma PassesAtEnd(s: State, c: Chunk, paranoia: int)
    requires Fits(s, c) && Survives(s, c, paranoia) && ShadowClear(s)
    ensures PassesFrom(s, c, paranoia)
  {}

  lemma LastTurn(s: State, c: Chunk, u: State)
    requires Done(s, c.from) && Fits(s, c) && c.from + c.size == |s.caps| && !Collides(s, c)
    requires Fits(u, c) && TurnEffect(s, c, u)
    ensures ShadowClear(s) && Pristine(u)
  {
    forall i | 0 <= i < |s.shadow| ensures !s.shadow[i] {}
    forall i | 0 <= i < |u.caps| ensures u.caps[i] == Cap(i, true) {}
  }

  /** A run of mode Once or Split over capabilities to themselves passes exactly when nothing is painted and,
      where the surroundings are checked, no slot outside the first chunk is dead; and then it leaves the
      arena as initialised. */
  lemma RunPassesExactly(s: State, mode: Mode, paranoia: int, rand: nat -> nat)
    requires SelfReferential(s) && s.caps != [] && (mode.Once? || mode.Split?)
    ensures var r := Run(s, mode, paranoia, rand);
      && (r.verdict == Passed <==>
            ShadowClear(s) && (paranoia > 1 ==> LiveOutside(s, Chunk(0, Sizes(mode, rand)(|s.caps|, 0)))))
      && (r.verdict == Passed ==> Pristine(r.state) && |r.state.caps| == |s.caps|)
      && (r.verdict == Collision <==>
            CollidesFrom(s, Chunk(0, Sizes(mode, rand)(|s.caps|, 0)), paranoia))
      && r.verdict != Unrevoked
  {
    TurnsExact(mode, paranoia);
    var size := Sizes(mode, rand);
    LoopPassesExactly(Turns(mode, paranoia), paranoia, size, s, Chunk(0, size(|s.caps|, 0)), 0);
  }

  /** The opening half passes exactly on an unpainted arena, and leaves all of it painted and dead. */
  lemma OpeningPassesExactly(s: State, paranoia: int, rand: nat -> nat)
    requires SelfReferential(s) && s.caps != []
    ensures var r := Run(s, SplitInit, paranoia, rand);
      && (r.verdict == Passed <==> ShadowClear(s)) && (r.verdict == Passed || r.verdict == Collision)
      && (r.verdict == Passed ==> Opened(r.state) && |r.state.caps| == |s.caps|)
  {
    var c := Chunk(0, |s.caps|);
    if !Collides(s, c) {
      var t := Revoked(Painted(s, c, true), false);
      assert forall i :: 0 <= i < |s.caps| ==> t.caps[i] == Cap(i, false) && t.shadow[i];
    }
  }

  /** The closing half always passes, and leaves the arena as initialised. */
  lemma ClosingRestores(s: State, paranoia: int, rand: nat -> nat)
    requires SelfReferential(s) && s.caps != []
    ensures var r := Run(s, SplitFini, paranoia, rand);
      r.verdict == Passed && Pristine(r.state) && |r.state.caps| == |s.caps|
  {
    var c := Chunk(0, |s.caps|);
    var u := Finished(s, c, SplitFini);
    assert forall i :: 0 <= i < |s.caps| ==> u.caps[i] == Cap(i, true) && !u.shadow[i];
    var turn, size := Turns(SplitFini, paranoia), Sizes(SplitFini, rand);
    assert turn(s, c) == Go(u) && c == Chunk(0, size(|s.caps|, 0));
    assert Loop(turn, size, |s.caps|, u, c.size, 1) == Outcome(u, Passed, []);
  }

  // ---- many runs --------------------------------------------------------------------------------

  datatype Call = Call(mode: Mode, paranoia: int, rand: nat -> nat)

  /** Do the calls, one after the other on the same arena, all pass? */
  predicate AllPass(s: State, calls: seq<Call>)
    decreases |calls|
  {
    calls == [] ||
    (var r := Run(s, calls[0].mode, calls[0].paranoia, calls[0].rand);
     r.verdict == Passed && AllPass(r.state, calls[1..]))
  }

  /** An opening half is followed at once by a closing one, if by anything. */
  predicate Bracketed(calls: seq<Call>) {
    forall i :: 0 <= i < |calls| - 1 && calls[i].mode.SplitInit? ==> calls[i + 1].mode.SplitFini?
  }

  lemma BracketedTail(calls: seq<Call>)
    requires |calls| >= 2
    ensures Bracketed(calls) <==> (calls[0].mode.SplitInit? ==> calls[1].mode.SplitFini?) && Bracketed(calls[1..])
  {
    if Bracketed(calls[1..]) {
      forall i | 0 < i < |calls| - 1 && calls[i].mode.SplitInit? ensures calls[i + 1].mode.SplitFini? {
        assert calls[1..][i - 1] == calls[i] && calls[1..][i] == calls[i + 1];
      }
    }
  }

  /** On a pristine arena any runs pass, with any random chunks, exactly when they are bracketed; on an opened
      one, exactly when in addition they begin by closing it. */
  lemma {:induction false} RunsPassExactly(s: State, calls: seq<Call>)
    requires s.caps != [] && (Pristine(s) || Opened(s))
    ensures AllPass(s, calls) <==> Bracketed(calls) && (Pristine(s) || calls == [] || calls[0].mode.SplitFini?)
    decreases |calls|
  {
    if calls != [] {
      var c := calls[0];
      OneRun(s, c);
      var r := Run(s, c.mode, c.paranoia, c.rand);
      if r.verdict == Passed {
        RunsPassExactly(r.state, calls[1..]);
      }
      if |calls| >= 2 {
        BracketedTail(calls);
      }
    }
  }

  lemma OneRun(s: State, c: Call)
    requires s.caps != [] && (Pristine(s) || Opened(s))
    ensures var r := Run(s, c.mode, c.paranoia, c.rand);
      && (r.verdict == Passed <==> Pristine(s) || c.mode.SplitFini?)
      && (r.verdict == Passed ==>
            && r.state.caps != []
            && if c.mode.SplitInit? then Opened(r.state) && !Pristine(r.state) else Pristine(r.state))
  {
    assert Opened(s) ==> s.shadow[0];
    match c.mode {
      case SplitInit => OpeningPassesExactly(s, c.paranoia, c.rand);
      case SplitFini => ClosingRestores(s, c.paranoia, c.rand);
      case _ => RunPassesExactly(s, c.mode, c.paranoia, c.rand);
    }
  }

  // ---- the chunks -------------------------------------------------------------------------------

  /** Chunks laid end to end from off. */
  predicate EndToEnd(cs: seq<Chunk>, off: nat, n: nat) {
    cs == [] ||
    (cs[0].from == off && 0 < cs[0].size <= n - off && EndToEnd(cs[1..], off + cs[0].size, n))
  }

  function EndOf(cs: seq<Chunk>, off: nat): nat {
    if cs == [] then off else EndOf(cs[1..], off + cs[0].size)
  }

  ghost predicate PassesByLooping(turn: (State, Chunk) -> Turn) {
    forall s, c :: turn(s, c).Halt? ==> turn(s, c).verdict != Passed
  }

  ghost predicate TakesAll(size: (Size, nat) -> Size) { forall left, i :: size(left, i) == left }

  ghost predicate AtMost(size: (Size, nat) -> Size, bound: nat) { forall left, i :: size(left, i) <= bound }

  lemma EndToEndMore(c: Chunk, rest: seq<Chunk>, off: nat, n: nat)
    requires c.from == off && 0 < c.size <= n - off && EndToEnd(rest, off + c.size, n)
    ensures EndToEnd([c] + rest, off, n) && EndOf([c] + rest, off) == EndOf(rest, off + c.size)
  {
    assert ([c] + rest)[1..] == rest;
  }

  lemma {:induction false} LoopEndToEnd(turn: (State, Chunk) -> Turn, size: (Size, nat) -> Size, n: nat, s: State,
      off: nat, draws: nat)
    requires Within(size) && off <= n && (PassesByLooping(turn) || TakesAll(size))
    ensures var r := Loop(turn, size, n, s, off, draws);
      EndToEnd(r.chunks, off, n) && (r.verdict == Passed ==> EndOf(r.chunks, off) == n)
    decreases n - off
  {
    if off < n {
      var c := Chunk(off, size(n - off, draws));
      var t := turn(s, c);
      if t.Go? {
        LoopEndToEnd(turn, size, n, t.state, off + c.size, draws + 1);
        EndToEndMore(c, Loop(turn, size, n, t.state, off + c.size, draws + 1).chunks, off, n);
      } else {
        EndToEndMore(c, [], off, n);
        assert [c] + [] == [c];
      }
    }
  }

  lemma {:induction false} LoopSizes(turn: (State, Chunk) -> Turn, size: (Size, nat) -> Size, n: nat, s: State,
      off: nat, draws: nat, bound: nat)
    requires Within(size) && AtMost(size, bound)
    ensures forall c :: c in Loop(turn, size, n, s, off, draws).chunks ==> c.size <= bound
    decreases n - off
  {
    if off < n {
      var c := Chunk(off, size(n - off, draws));
      var t := turn(s, c);
      if t.Go? {
        LoopSizes(turn, size, n, t.state, off + c.size, draws + 1, bound);
      }
    }
  }

  /** The size of chunk c is that of draw number i. */
  predicate DrawnAs(size: (Size, nat) -> Size, n: nat, c: Chunk, i: nat) {
    c.from < n && c.size == size(n - c.from, i)
  }

  ghost predicate AllDrawn(size: (Size, nat) -> Size, n: nat, cs: seq<Chunk>, draws: nat) {
    forall k: nat | k < |cs| :: DrawnAs(size, n, cs[k], draws + k)
  }

  lemma DrawnMore(size: (Size, nat) -> Size, n: nat, c: Chunk, rest: seq<Chunk>, draws: nat)
    requires DrawnAs(size, n, c, draws) && AllDrawn(size, n, rest, draws + 1)
    ensures AllDrawn(size, n, [c] + rest, draws)
  {
    var cs := [c] + rest;
    forall k: nat | k < |cs| ensures DrawnAs(size, n, cs[k], draws + k) {
      if k > 0 { assert DrawnAs(size, n, rest[k - 1], draws + 1 + (k - 1)); }
    }
  }

  lemma {:induction false} LoopDraws(turn: (State, Chunk) -> Turn, size: (Size, nat) -> Size, n: nat, s: State,
      off: nat, draws: nat)
    ensures AllDrawn(size, n, Loop(turn, size, n, s, off, draws).chunks, draws)
    decreases n - off
  {
    if off < n {
      var c := Chunk(off, size(n - off, draws));
      var t := turn(s, c);
      if t.Go? {
        LoopDraws(turn, size, n, t.state, off + c.size, draws + 1);
        DrawnMore(size, n, c, Loop(turn, size, n, t.state, off + c.size, draws + 1).chunks, draws);
      }
    }
  }

  /** The size of every chunk: all there is for the halves of a split run, and otherwise what is drawn for it, from 1
      to 1024 slots, or the rest where that is less. */
  lemma ChunksDrawn(s: State, mode: Mode, paranoia: int, rand: nat -> nat)
    ensures var cs, n := Run(s, mode, paranoia, rand).chunks, |s.caps|;
      if mode.SplitInit? || mode.SplitFini? then cs == if n == 0 then [] else [Chunk(0, n)]
      else
        forall k | 0 <= k < |cs| ::
          var drawn, left := rand(k) % 1024 + 1, n - cs[k].from;
          cs[k].size == if drawn <= left then drawn else left
  {
    LoopDraws(Turns(mode, paranoia), Sizes(mode, rand), |s.caps|, s, 0, 0);
    if mode.SplitInit? || mode.SplitFini? {
      OneChunk(s, mode, paranoia, rand);
    } else {
      var cs, n := Run(s, mode, paranoia, rand).chunks, |s.caps|;
      forall k: nat | k < |cs|
        ensures var drawn, left := rand(k) % 1024 + 1, n - cs[k].from;
          cs[k].size == if drawn <= left then drawn else left
      {
        assert DrawnAs(Sizes(mode, rand), n, cs[k], 0 + k);
      }
    }
  }

  lemma OneChunk(s: State, mode: Mode, paranoia: int, rand: nat -> nat)
    requires mode.SplitInit? || mode.SplitFini?
    ensures Run(s, mode, paranoia, rand).chunks == if s.caps == [] then [] else [Chunk(0, |s.caps|)]
  {
    var n := |s.caps|;
    if n > 0 {
      var turn, size, c := Turns(mode, paranoia), Sizes(mode, rand), Chunk(0, n);
      assert c == Chunk(0, size(n, 0));
      match turn(s, c) {
        case Halt(_, _) =>
        case Go(t) => assert Loop(turn, size, n, t, n, 1) == Outcome(t, Passed, []);
      }
    }
  }

  /** Whatever is drawn, the chunks of a run follow one another, those of modes Once and Split have at most 1024
      slots, and in a run that passes every slot is in exactly one chunk. */
  lemma ChunksPartition(s: State, mode: Mode, paranoia: int, rand: nat -> nat)
    ensures var r := Run(s, mode, paranoia, rand);
      && EndToEnd(r.chunks, 0, |s.caps|)
      && (mode.Once? || mode.Split? ==> forall c :: c in r.chunks ==> c.size <= 1024)
      && (r.verdict == Passed ==> forall i | 0 <= i < |s.caps| :: ExactlyOne(r.chunks, i))
  {
    var n, r := |s.caps|, Run(s, mode, paranoia, rand);
    LoopEndToEnd(Turns(mode, paranoia), Sizes(mode, rand), n, s, 0, 0);
    if mode.Once? || mode.Split? {
      LoopSizes(Turns(mode, paranoia), Sizes(mode, rand), n, s, 0, 0, 1024);
    }
    if r.verdict == Passed {
      forall i | 0 <= i < n ensures ExactlyOne(r.chunks, i) {
        var k := EndToEndPartitions(r.chunks, 0, n, i);
      }
    }
  }

  ghost predicate ExactlyOne(cs: seq<Chunk>, i: nat) {
    exists k :: 0 <= k < |cs| && In(i, cs[k]) && forall j :: 0 <= j < |cs| && In(i, cs[j]) ==> j == k
  }

  /** Chunks laid end to end from off to n hold every slot in between, each in exactly one of them. */
  lemma {:induction false} EndToEndPartitions(cs: seq<Chunk>, off: nat, n: nat, i: nat) returns (k: nat)
    requires EndToEnd(cs, off, n) && EndOf(cs, off) == n && off <= i < n
    ensures k < |cs| && In(i, cs[k])
    ensures forall j :: 0 <= j < |cs| && In(i, cs[j]) ==> j == k
    decreases |cs|
  {
    if In(i, cs[0]) {
      k := 0;
      AllFrom(cs, off, n);
    } else {
      k := EndToEndPartitions(cs[1..], off + cs[0].size, n, i);
      assert forall j :: 0 < j < |cs| ==> cs[j] == cs[1..][j - 1];
      k := k + 1;
    }
  }

  lemma {:induction false} AllFrom(cs: seq<Chunk>, off: nat, n: nat)
    requires EndToEnd(cs, off, n)
    ensures forall j :: 0 <= j < |cs| ==> off <= cs[j].from
    ensures forall j :: 0 < j < |cs| ==> off + cs[0].size <= cs[j].from
    decreases |cs|
  {
    if cs != [] {
      AllFrom(cs[1..], off + cs[0].size, n);
      assert forall j :: 0 < j < |cs| ==> cs[j] == cs[1..][j - 1];
    }
  }

  // ---- the program ------------------------------------------------------------------------------

  function Prefixed(cs: seq<Chunk>, r: Outcome): Outcome { r.(chunks := cs + r.chunks) }

  lemma NothingYet(r: Outcome)
    ensures r == Prefixed([], r)
  {
    assert [] + r.chunks == r.chunks;
  }

  lemma LoopEnd(turn: (State, Chunk) -> Turn, size: (Size, nat) -> Size, n: nat, s: State, draws: nat, cs: seq<Chunk>)
    ensures Prefixed(cs, Loop(turn, size, n, s, n, draws)) == Outcome(s, Passed, cs)
  {
    assert cs + [] == cs;
  }

  lemma LoopGoes(turn: (State, Chunk) -> Turn, size: (Size, nat) -> Size, n: nat, s: State, c: Chunk, draws: nat,
      cs: seq<Chunk>, all: Outcome, u: State, next: nat, ds: seq<Chunk>)
    requires c.from < n && c.size == size(n - c.from, draws) && turn(s, c) == Go(u)
    requires all == Prefixed(cs, Loop(turn, size, n, s, c.from, draws))
    requires next == c.from + c.size && ds == cs + [c]
    ensures all == Prefixed(ds, Loop(turn, size, n, u, next, draws + 1))
  {
    var rest := Loop(turn, size, n, u, next, draws + 1).chunks;
    assert cs + ([c] + rest) == ds + rest;
  }

  lemma LoopHalts(turn: (State, Chunk) -> Turn, size: (Size, nat) -> Size, n: nat, s: State, c: Chunk, draws: nat,
      cs: seq<Chunk>, all: Outcome, v: Verdict, u: State)
    requires c.from < n && c.size == size(n - c.from, draws) && turn(s, c) == Halt(v, u)
    requires all == Prefixed(cs, Loop(turn, size, n, s, c.from, draws))
    ensures all == Outcome(u, v, cs + [c])
  {}

  class Arena {
    const bigblock: array<Cap>
    const shadow: array<bool>
    var open: bool

    ghost predicate Valid() { bigblock.Length == shadow.Length }

    ghost function Abs(): (s: State)
      requires Valid()
      reads this, bigblock, shadow
      ensures Sized(s)
    {
      State(bigblock[..], shadow[..], open)
    }

    /** A fresh mapping, each slot made to point to itself; its shadow starts clear. */
    constructor (bigblockCaps: nat)
      ensures Valid() && fresh(bigblock) && fresh(shadow) && bigblock.Length == bigblockCaps && Pristine(Abs())
    {
      bigblock := new Cap[bigblockCaps](_ => Cap(0, false));
      shadow := new bool[bigblockCaps](_ => false);
      open := false;
      new;
      for ix := 0 to bigblockCaps
        invariant forall i :: 0 <= i < ix ==> bigblock[i] == Cap(i, true)
        invariant !open && forall i :: 0 <= i < bigblockCaps ==> !shadow[i]
      {
        bigblock[ix] := Cap(ix, true);
      }
    }

    /** Painting refuses a chunk that is already painted somewhere. */
    method SetShadow(c: Chunk) returns (ok: bool)
      requires Valid() && Fits(Abs(), c)
      modifies shadow
      ensures ok == !Collides(old(Abs()), c)
      ensures Abs() == if ok then Painted(old(Abs()), c, true) else old(Abs())
    {
      for i := c.from to c.from + c.size
        invariant forall j :: c.from <= j < i ==> !shadow[j]
      {
        if shadow[i] {
          return false;
        }
      }
      Paint(c, true);
      return true;
    }

    /** The paint may not be cleared while an epoch is open. */
    method ClearShadow(c: Chunk)
      requires Valid() && Fits(Abs(), c) && !open
      modifies shadow
      ensures Abs() == Painted(old(Abs()), c, false)
    {
      Paint(c, false);
    }

    method Paint(c: Chunk, bit: bool)
      requires Valid() && Fits(Abs(), c)
      modifies shadow
      ensures Abs() == Painted(old(Abs()), c, bit)
    {
      for i := c.from to c.from + c.size
        invariant forall j :: 0 <= j < shadow.Length ==>
          shadow[j] == if c.from <= j < i then bit else old(shadow[j])
      {
        shadow[i] := bit;
      }
      assert shadow[..] == Painted(old(Abs()), c, bit).shadow;
    }

    /** The kernel's part, over the whole arena. */
    method Revoke(last: bool)
      requires Valid()
      modifies this, bigblock
      ensures Abs() == Revoked(old(Abs()), last)
    {
      for i := 0 to bigblock.Length
        invariant open == old(open)
        invariant forall j :: 0 <= j < bigblock.Length ==>
          var c := old(bigblock[j]);
          bigblock[j] == if j < i then c.(live := c.live && !Marked(shadow[..], c.target)) else c
      {
        if Marked(shadow[..], bigblock[i].target) {
          bigblock[i] := bigblock[i].(live := false);
        }
      }
      open := !last;
      assert bigblock[..] == Revoked(old(Abs()), last).caps;
    }

    method PutBack(c: Chunk)
      requires Valid() && Fits(Abs(), c)
      modifies bigblock
      ensures Abs() == Restored(old(Abs()), c)
    {
      for i := c.from to c.from + c.size
        invariant forall j :: 0 <= j < bigblock.Length ==>
          bigblock[j] == if c.from <= j < i then Cap(j, true) else old(bigblock[j])
      {
        bigblock[i] := Cap(i, true);
      }
      assert bigblock[..] == Restored(old(Abs()), c).caps;
    }

    /** The checks after a revocation: below the chunk, above it, and inside. */
    method Check(c: Chunk, paranoia: int) returns (v: Verdict)
      requires Valid() && Fits(Abs(), c)
      ensures v == Checked(Abs(), c, paranoia)
    {
      ghost var s := Abs();
      if paranoia > 1 {
        for ix := 0 to c.from
          invariant forall j :: 0 <= j < ix ==> s.caps[j].live
        {
          if !bigblock[ix].live {
            assert !In(ix, c) && !s.caps[ix].live;
            return WronglyRevoked;
          }
        }
        for ix := c.from + c.size to bigblock.Length
          invariant forall j :: c.from + c.size <= j < ix ==> s.caps[j].live
        {
          if !bigblock[ix].live {
            assert !In(ix, c) && !s.caps[ix].live;
            return WronglyRevoked;
          }
        }
      }
      if paranoia > 0 {
        for ix := c.from to c.from + c.size
          invariant forall j :: c.from <= j < ix ==> !s.caps[j].live
        {
          if bigblock[ix].live {
            assert s.caps[ix].live;
            return Unrevoked;
          }
        }
      }
      return Passed;
    }

    /** One turn of the loop; the closing half jumps over the marking. */
    method Turn(mode: Mode, paranoia: int, c: Chunk) returns (verdict: Verdict, go: bool)
      requires Valid() && Fits(Abs(), c)
      modifies this, bigblock, shadow
      ensures Turns(mode, paranoia)(old(Abs()), c) == if go then Go(Abs()) else Halt(verdict, Abs())
    {
      if !mode.SplitFini? {
        var ok := SetShadow(c);
        if !ok {
          return Collision, false;
        }
        Revoke(mode.Once?);
        verdict := Check(c, paranoia);
        if verdict != Passed || mode.SplitInit? {
          return verdict, false;
        }
      }
      if !mode.Once? {
        Revoke(true);
      }
      ClearShadow(c);
      PutBack(c);
      return Passed, true;
    }

    /** The driver loop over the whole arena. */
    method LibRun(mode: Mode, paranoia: int, rand: nat -> nat) returns (verdict: Verdict, chunks: seq<Chunk>)
      requires Valid()
      modifies this, bigblock, shadow
      ensures Outcome(Abs(), verdict, chunks) == Run(old(Abs()), mode, paranoia, rand)
    {
      var size := Sizes(mode, rand);
      verdict, chunks := Drive(mode, paranoia, size);
    }

    method Drive(mode: Mode, paranoia: int, size: (Size, nat) -> Size) returns (verdict: Verdict, chunks: seq<Chunk>)
      requires Valid() && Within(size)
      modifies this, bigblock, shadow
      ensures Outcome(Abs(), verdict, chunks) == Loop(Turns(mode, paranoia), size, bigblock.Length, old(Abs()), 0, 0)
    {
      var off, draws, go := 0, 0, true;
      verdict, chunks := Passed, [];
      ghost var n := bigblock.Length;
      ghost var all := Loop(Turns(mode, paranoia), size, n, Abs(), 0, 0);
      NothingYet(all);
      while off < bigblock.Length
        invariant off <= n
        invariant all == Prefixed(chunks, Loop(Turns(mode, paranoia), size, n, Abs(), off, draws))
        decreases n - off
      {
        verdict, go, off, chunks := Advance(mode, paranoia, size, off, draws, chunks, all);
        if !go {
          return;
        }
        draws := draws + 1;
      }
      verdict := Passed;
      LoopEnd(Turns(mode, paranoia), size, n, Abs(), draws, chunks);
    }

    /** A turn, and what it leaves of the loop. */
    method Advance(mode: Mode, paranoia: int, size: (Size, nat) -> Size, off: nat, draws: nat, done: seq<Chunk>,
        ghost all: Outcome) returns (verdict: Verdict, go: bool, next: nat, chunks: seq<Chunk>)
      requires Valid() && Within(size) && off < bigblock.Length
      requires all == Prefixed(done, Loop(Turns(mode, paranoia), size, bigblock.Length, Abs(), off, draws))
      modifies this, bigblock, shadow
      ensures off < next <= bigblock.Length
      ensures go ==>
        all == Prefixed(chunks, Loop(Turns(mode, paranoia), size, bigblock.Length, Abs(), next, draws + 1))
      ensures !go ==> all == Outcome(Abs(), verdict, chunks)
    {
      var c := Chunk(off, size(bigblock.Length - off, draws));
      ghost var s := Abs();
      verdict, go := Turn(mode, paranoia, c);
      next, chunks := off + c.size, done + [c];
      ghost var u := Abs();
      if go {
        LoopGoes(Turns(mode, paranoia), size, bigblock.Length, s, c, draws, done, all, u, next, chunks);
      } else {
        LoopHalts(Turns(mode, paranoia), size, bigblock.Length, s, c, draws, done, all, verdict, u);
      }
    }
  }

  const BIGBLOCK_CAPS: nat := 4096
  const PARANOIA := 2

  /** The body of cheri_revoke_lib: with an exact revoker it succeeds whatever rand() returns. */
  method CheriRevokeLib(rand1: nat -> nat, rand2: nat -> nat) returns (success: bool)
    ensures success
  {
    var arena := new Arena(BIGBLOCK_CAPS);
    RunPassesExactly(arena.Abs(), Once, PARANOIA, rand1);
    var v, chunks := arena.LibRun(Once, PARANOIA, rand1);
    if v != Passed {
      return false;
    }
    RunPassesExactly(arena.Abs(), Split, PARANOIA, rand2);
    v, chunks := arena.LibRun(Split, PARANOIA, rand2);
    return v == Passed;
  }

  /** The body of cheri_revoke_lib_fork_split, its two halves on one arena. */
  method CheriRevokeLibForkSplit(rand: nat -> nat) returns (success: bool)
    ensures success
  {
    var arena := new Arena(BIGBLOCK_CAPS);
    OpeningPassesExactly(arena.Abs(), PARANOIA, rand);
    var v, chunks := arena.LibRun(SplitInit, PARANOIA, rand);
    if v != Passed {
      return false;
    }
    ClosingRestores(arena.Abs(), PARANOIA, rand);
    v, chunks := arena.LibRun(SplitFini, PARANOIA, rand);
    return v == Passed;
  }
}
