/** The patch set-feature-ctl-note makes, and what running it again and again does to a file. */
module FeaturePatch {
  import opened ElfNotes
  import opened LittleEndian
  import opened Words

  const REVOKE_DISABLE: bv32 := 0x20
  const REVOKE_ENABLE: bv32 := 0x8000_0000

  datatype Command = CheriRevoke | NoCheriRevoke

  /** Clear the disabling bit and set the enabling one. */
  function Enable(w: bv32): bv32 { (w & !REVOKE_DISABLE) | REVOKE_ENABLE }

  function Disable(w: bv32): bv32 { (w & !REVOKE_ENABLE) | REVOKE_DISABLE }

  /** A uint32_t as its bits, and back. */
  function Bits(n: Word32): bv32 { n as bv32 }

  function Number(w: bv32): Word32 { w as int }

  lemma BitsBack(w: bv32)
    ensures Bits(Number(w)) == w
  {}

  function NewBits(c: Command, w: bv32): bv32 { if c.CheriRevoke? then Enable(w) else Disable(w) }

  function Rewrite(c: Command, n: Word32): Word32 { Number(NewBits(c, Bits(n))) }

  // ---- the descriptor word in the file ----------------------------------------------------------

  function Store(f: Bytes, off: nat, n: Word32): Bytes
    requires off + 4 <= |f|
  {
    f[..off] + LE(n, 4) + f[off + 4..]
  }

  /** The word written is there, lowest byte first, and is read back. */
  lemma StoreLoad(f: Bytes, off: nat, n: Word32)
    requires off + 4 <= |f|
    ensures var g := Store(f, off, n);
      At(g, off, LE(n, 4)) && U32(g, off) == n && SameElsewhere(f, g, off)
  {
    FieldsExactly(Store(f, off, n), off, n);
  }

  lemma FourBytes(n: nat)
    ensures LE(n, 4) == [n % 256, n / 256 % 256, n / 256 / 256 % 256, n / 256 / 256 / 256 % 256]
  {
    assert LE(n / 256 / 256, 2) == [n / 256 / 256 % 256, n / 256 / 256 / 256 % 256];
    assert LE(n / 256, 3) == [n / 256 % 256] + LE(n / 256 / 256, 2);
  }

  lemma StoredIs(f: Bytes, g: Bytes, off: nat, n: Word32)
    requires off + 4 <= |f| && SameElsewhere(f, g, off)
    requires g[off] == n % 256 && g[off + 1] == n / 256 % 256
    requires g[off + 2] == n / 256 / 256 % 256 && g[off + 3] == n / 256 / 256 / 256 % 256
    ensures g == Store(f, off, n)
  {
    FourBytes(n);
    assert g == g[..off] + g[off..off + 4] + g[off + 4..];
    assert g[off..off + 4] == [g[off], g[off + 1], g[off + 2], g[off + 3]];
    assert g[..off] == f[..off] && g[off + 4..] == f[off + 4..];
  }

  lemma StoreStore(f: Bytes, off: nat, v: Word32, w: Word32)
    requires off + 4 <= |f|
    ensures Store(Store(f, off, v), off, w) == Store(f, off, w)
  {}

  // ---- one run ----------------------------------------------------------------------------------

  datatype Outcome = Patched(file: Bytes) | Refused(error: Error)

  const ELF_MAGIC: Bytes := [0x7f, 0x45, 0x4c, 0x46]

  /** main after the arguments: check the header, find the descriptor, rewrite its first word. */
  function PatchFile(f: Bytes, c: Command): Outcome
    requires Sized(f)
  {
    if |f| < EHDR_SIZE then Refused(ShortRead)
    else if f[..4] != ELF_MAGIC then Refused(NotElf)
    else if f[4] != 2 || f[5] != 1 then Refused(NotElf)
    else if U16(f, 54) != PHDR_SIZE then Refused(BadHeader)
    else
      match FindDesc(f)
      case Absent => Refused(NoNote)
      case Fail(e) => Refused(e)
      case Desc(off) =>
        if !CanRead(f, off, 4) then Refused(ShortRead)
        else Patched(Store(f, off, Rewrite(c, U32(f, off))))
  }

  /** pwrite of the word. */
  method StoreWord(file: array<Byte>, off: nat, n: Word32)
    requires off + 4 <= file.Length
    modifies file
    ensures file[..] == Store(old(file[..]), off, n)
  {
    file[off] := n % 256;
    file[off + 1] := n / 256 % 256;
    file[off + 2] := n / 256 / 256 % 256;
    file[off + 3] := n / 256 / 256 / 256 % 256;
    StoredIs(old(file[..]), file[..], off, n);
  }

  /** The program on the open file, which it rewrites in place, or not at all. */
  method SetFeature(file: array<Byte>, c: Command) returns (error: Error, ok: bool)
    requires Sized(file[..])
    modifies file
    ensures match PatchFile(old(file[..]), c)
      case Patched(g) => ok && file[..] == g
      case Refused(e) => !ok && error == e && file[..] == old(file[..])
  {
    error, ok := NoNote, false;
    if file.Length < EHDR_SIZE {
      return ShortRead, false;
    }
    if file[..4] != ELF_MAGIC {
      return NotElf, false;
    }
    if file[4] != 2 || file[5] != 1 {
      return NotElf, false;
    }
    if U16(file[..], 54) != PHDR_SIZE {
      return BadHeader, false;
    }
    var r := FindFeatureCtlDesc(file);
    match r {
      case Absent => return;
      case Fail(e) => return e, false;
      case Desc(off) =>
        if !CanRead(file[..], off, 4) {
          return ShortRead, false;
        }
        StoreWord(file, off, Rewrite(c, U32(file[..], off)));
        return NoNote, true;
    }
  }

  /** A little-endian ELF64 file. */
  predicate IsElf(f: Bytes) { |f| >= 64 && f[..6] == [0x7f, 'E' as int, 'L' as int, 'F' as int, 2, 1] }

  predicate HeaderGood(f: Bytes) { IsElf(f) && f[54] == 56 && f[55] == 0 }

  lemma ChecksPass(f: Bytes)
    requires |f| >= EHDR_SIZE
    ensures IsElf(f) <==> f[..4] == ELF_MAGIC && f[4] == 2 && f[5] == 1
    ensures f[54] == 56 && f[55] == 0 <==> U16(f, 54) == PHDR_SIZE
  {
    assert f[..6] == f[..4] + [f[4], f[5]];
  }

  /** Which files are patched, and why the others are not. */
  lemma RefusesExactly(f: Bytes, c: Command)
    requires Sized(f)
    ensures var r := PatchFile(f, c);
      && (r.Patched? <==> HeaderGood(f) && FindDesc(f).Desc? && FindDesc(f).off + 4 <= |f|)
      && (r == Refused(NotElf) <==> |f| >= 64 && !IsElf(f))
      && (r == Refused(BadHeader) <==> IsElf(f) && !HeaderGood(f))
      && (r == Refused(NoNote) <==> HeaderGood(f) && FindDesc(f).Absent?)
      && (r == Refused(DescTooSmall) <==> HeaderGood(f) && FindDesc(f) == Fail(DescTooSmall))
  {
    FindFails(f);
    if |f| >= EHDR_SIZE {
      ChecksPass(f);
    }
  }

  /** The search itself fails in two ways only, and finds nothing beyond 2^63. */
  lemma {:induction false} WalkFails(f: Bytes, pos: Word64, end: Word64)
    requires Sized(f)
    ensures var r := Walk(f, pos, end);
      (r.Fail? ==> r.error == ShortRead || r.error == DescTooSmall) && (r.Desc? ==> r.off <= |f|)
    decreases TWO64 - pos
  {
    var t := TurnAt(f, pos, end);
    if t.Go? { WalkFails(f, t.next, end); }
  }

  lemma {:induction false} SegmentsFail(f: Bytes, entry: nat -> Entry, n: nat, i: nat)
    requires Sized(f)
    ensures var r := Segments(f, entry, n, i);
      (r.Fail? ==> r.error == ShortRead || r.error == DescTooSmall) && (r.Desc? ==> r.off <= |f|)
    decreases n - i
  {
    if i < n {
      SegmentsFail(f, entry, n, i + 1);
      if entry(i).Notes? { WalkFails(f, entry(i).start, entry(i).end); }
    }
  }

  lemma FindFails(f: Bytes)
    requires Sized(f)
    ensures |f| >= EHDR_SIZE ==>
      var r := FindDesc(f);
      (r.Fail? ==> r.error == ShortRead || r.error == DescTooSmall) && (r.Desc? ==> r.off <= |f|)
  {
    if |f| >= EHDR_SIZE { SegmentsFail(f, Entries(f), U16(f, 56), 0); }
  }

  /** What a run makes of the word: of the bits 31 and 5 the one asked for, and the other 30 as they were. */
  predicate RightBits(c: Command, w: bv32, v: bv32) {
    && v & 0x7fff_ffdf == w & 0x7fff_ffdf
    && v & 0x8000_0020 == if c.CheriRevoke? then 0x8000_0000 else 0x20
  }

  lemma NewBitsRight(c: Command, w: bv32)
    ensures RightBits(c, w, NewBits(c, w))
  {
    EnablesRight(w);
    DisablesRight(w);
  }

  lemma RewritesRight(c: Command, n: Word32)
    ensures RightBits(c, Bits(n), Bits(Rewrite(c, n)))
  {
    NewBitsRight(c, Bits(n));
    BitsBack(NewBits(c, Bits(n)));
  }

  lemma EnablesRight(w: bv32)
    ensures RightBits(CheriRevoke, w, Enable(w))
  {}

  lemma DisablesRight(w: bv32)
    ensures RightBits(NoCheriRevoke, w, Disable(w))
  {}

  /** One run keeps the length, every byte outside the word, and the other 30 bits of the word; of the two
      revocation bits it leaves exactly the one asked for. */
  lemma PatchTouchesTwoBits(f: Bytes, c: Command)
    requires Sized(f) && PatchFile(f, c).Patched?
    ensures FindDesc(f).Desc? && FindDesc(f).off + 4 <= |f|
    ensures var g, off := PatchFile(f, c).file, FindDesc(f).off;
      SameElsewhere(f, g, off) && RightBits(c, Bits(U32(f, off)), Bits(U32(g, off)))
  {
    var off := FindDesc(f).off;
    StoreLoad(f, off, Rewrite(c, U32(f, off)));
    RewritesRight(c, U32(f, off));
  }

  // ---- many runs --------------------------------------------------------------------------------

  lemma EnableTwice(w: bv32)
    ensures Enable(Enable(w)) == Enable(w)
  {}

  lemma DisableTwice(w: bv32)
    ensures Disable(Disable(w)) == Disable(w)
  {}

  lemma EnableLast(w: bv32)
    ensures Enable(Disable(w)) == Enable(w)
  {}

  lemma DisableLast(w: bv32)
    ensures Disable(Enable(w)) == Disable(w)
  {}

  lemma LastWordWins(n: Word32, c1: Command, c2: Command)
    ensures Rewrite(c2, Rewrite(c1, n)) == Rewrite(c2, n)
  {
    var w := Bits(n);
    EnableTwice(w);
    DisableTwice(w);
    EnableLast(w);
    DisableLast(w);
    BitsBack(Enable(w));
    BitsBack(Disable(w));
  }

  lemma ChecksSame(f: Bytes, g: Bytes, off: nat)
    requires SameElsewhere(f, g, off) && EHDR_SIZE <= off && |f| >= EHDR_SIZE
    ensures f[..4] == g[..4] && f[4] == g[4] && f[5] == g[5] && U16(f, 54) == U16(g, 54)
  {}

  lemma Rewritten(f: Bytes, off: nat, c1: Command, c2: Command)
    requires off + 4 <= |f|
    ensures var g := Store(f, off, Rewrite(c1, U32(f, off)));
      Store(g, off, Rewrite(c2, U32(g, off))) == Store(f, off, Rewrite(c2, U32(f, off)))
  {
    var w := Rewrite(c1, U32(f, off));
    StoreLoad(f, off, w);
    LastWordWins(U32(f, off), c1, c2);
    StoreStore(f, off, w, Rewrite(c2, w));
  }

  /** If the word lies clear of everything the search reads, a second run finds it again and leaves what it
      would have left alone. */
  lemma PatchTwice(f: Bytes, c1: Command, c2: Command)
    requires Sized(f) && PatchFile(f, c1).Patched? && FindClear(f, FindDesc(f).off)
    ensures var g := PatchFile(f, c1).file;
      |g| == |f| && FindDesc(g) == FindDesc(f) && PatchFile(g, c2) == PatchFile(f, c2)
  {
    var off := FindDesc(f).off;
    var g := PatchFile(f, c1).file;
    StoreLoad(f, off, Rewrite(c1, U32(f, off)));
    FindSame(f, g, off);
    ChecksSame(f, g, off);
    Rewritten(f, off, c1, c2);
  }

  /** One run as a function of the file and the argument. */
  function Run(): (Bytes, Command) -> Outcome {
    (f, c) => if Sized(f) then PatchFile(f, c) else Refused(ShortRead)
  }

  function Runs(run: (Bytes, Command) -> Outcome, f: Bytes, cs: seq<Command>): Outcome
    decreases |cs|
  {
    if cs == [] then Patched(f)
    else
      var before := Runs(run, f, cs[..|cs| - 1]);
      if before.Patched? then run(before.file, cs[|cs| - 1]) else before
  }

  lemma {:induction false} RunsCollapse(run: (Bytes, Command) -> Outcome, f: Bytes, cs: seq<Command>)
    requires cs != []
    requires forall c :: run(f, c).Patched?
    requires forall c1, c2 :: run(run(f, c1).file, c2) == run(f, c2)
    ensures Runs(run, f, cs) == run(f, cs[|cs| - 1])
    decreases |cs|
  {
    var n := |cs| - 1;
    if n == 0 {
      assert cs[..0] == [];
    } else {
      RunsCollapse(run, f, cs[..n]);
    }
  }

  /** Any sequence of runs leaves the file that the last of them would have left alone. */
  lemma LastRunWins(f: Bytes, cs: seq<Command>)
    requires Sized(f) && cs != []
    requires PatchFile(f, cs[0]).Patched? && FindClear(f, FindDesc(f).off)
    ensures Runs(Run(), f, cs) == PatchFile(f, cs[|cs| - 1])
  {
    forall c ensures Run()(f, c).Patched? { AlwaysPatches(f, cs[0], c); }
    forall c1, c2 ensures Run()(Run()(f, c1).file, c2) == Run()(f, c2) {
      AlwaysPatches(f, cs[0], c1);
      PatchTwice(f, c1, c2);
    }
    RunsCollapse(Run(), f, cs);
  }

  lemma AlwaysPatches(f: Bytes, c1: Command, c2: Command)
    requires Sized(f) && PatchFile(f, c1).Patched?
    ensures PatchFile(f, c2).Patched?
  {}
}
