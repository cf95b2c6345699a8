/** Laid-out files under the patch: which bytes change, and why the last of many runs wins. */
module PatchedFile {
  import opened ElfFile
  import opened ElfNotes
  import opened FeaturePatch
  import opened LittleEndian
  import opened Words

  // ---- where the word is clear ------------------------------------------------------------------

  /** The walk reads upwards: what it finds lies beyond all it has read. */
  lemma {:induction false} OwnWalkClear(f: Bytes, pos: Word64, end: Word64)
    requires Sized(f) && Walk(f, pos, end).Desc?
    ensures pos + NHDR_SIZE + 8 <= Walk(f, pos, end).off && WalkClear(f, pos, end, Walk(f, pos, end).off)
    decreases TWO64 - pos
  {
    var t := TurnAt(f, pos, end);
    if t.Go? {
      OwnWalkClear(f, t.next, end);
    }
  }

  lemma NoteReadsInside(f: Bytes, pos: nat, end: nat, n: Note, off: nat)
    requires Sized(f) && pos + Size(n) <= end <= |f| && Size(n) < TWO32 && Encodes(f, pos, n)
    requires end <= off || off + 4 <= pos
    ensures TurnClear(f, pos, end, off)
  {
    if |n.name| == 8 {
      assert 8 <= 4 * n.nameWords;
    }
  }

  /** A walk that stops at once, and one that goes on from next. */
  lemma ClearStop(f: Bytes, pos: Word64, end: Word64, off: nat)
    requires Sized(f) && TurnClear(f, pos, end, off) && TurnAt(f, pos, end).Stop?
    ensures WalkClear(f, pos, end, off)
  {}

  lemma ClearGo(f: Bytes, pos: Word64, end: Word64, off: nat, next: Word64)
    requires Sized(f) && TurnClear(f, pos, end, off) && TurnAt(f, pos, end) == Go(next) && WalkClear(f, next, end, off)
    ensures WalkClear(f, pos, end, off)
  {}

  lemma NoMoreNotes(f: Bytes, pos: nat, end: nat, off: nat)
    requires Sized(f) && pos <= end <= |f| && end < pos + NHDR_SIZE
    ensures TurnClear(f, pos, end, off) && TurnAt(f, pos, end).Stop?
  {}

  /** A well-formed segment is read within its bounds. */
  lemma {:induction false} SegmentReadsInside(f: Bytes, pos: nat, end: nat, ns: seq<Note>, off: nat)
    requires Sized(f) && pos <= end <= |f| && end - pos < TWO32 && EncodesAll(f, pos, end, ns)
    requires end <= off || off + 4 <= pos
    ensures WalkClear(f, pos, end, off)
    decreases |ns|
  {
    if ns == [] {
      NoMoreNotes(f, pos, end, off);
      ClearStop(f, pos, end, off);
    } else {
      var n, next := ns[0], pos + Size(ns[0]);
      NoteReadsInside(f, pos, end, n, off);
      TurnOne(f, pos, end, n);
      if IsFeatureCtl(n) {
        ClearStop(f, pos, end, off);
      } else {
        SegmentReadsInside(f, next, end, ns[1..], off);
        ClearGo(f, pos, end, off, next);
      }
    }
  }

  predicate IsNotes(h: Phdr) { h.kind == PT_NOTE }

  /** The n bytes at a and the k bytes at b do not overlap. */
  predicate Disjoint(a: nat, n: nat, b: nat, k: nat) { a + n <= b || b + k <= a }

  /** The headers and the note segments do not overlap; several headers may name one segment. */
  predicate Separate(x: Elf) {
    && (forall j | 0 <= j < |x.phdrs| && IsNotes(x.phdrs[j]) :: EHDR_SIZE <= x.phdrs[j].offset)
    && (forall i: nat, j: nat | i < |x.phdrs| && j < |x.phdrs| && IsNotes(x.phdrs[j]) ::
          SeparateFrom(PhdrPos(x.ehdr, i), x.phdrs[i], x.phdrs[j]))
  }

  predicate SeparateFrom(o: nat, h: Phdr, s: Phdr) {
    && Disjoint(o, PHDR_SIZE, s.offset, s.filesz)
    && (IsNotes(h) ==> (h.offset, h.filesz) == (s.offset, s.filesz) || Disjoint(h.offset, h.filesz, s.offset, s.filesz))
  }

  predicate EntryClear(f: Bytes, o: nat, e: Entry, off: nat)
    requires Sized(f)
  {
    Clear(o, PHDR_SIZE, off) && (e.Notes? ==> SegmentClear(f, e.start, e.end, off))
  }

  lemma {:induction false} AllClear(f: Bytes, phoff: Word64, phentsize: nat, n: nat, i: nat, off: nat)
    requires Sized(f) && phentsize < 0x1_0000 && i <= n < 0x1_0000
    requires forall j: nat | j < n :: EntryClear(f, PhdrAt(phoff, phentsize, j), EntryAt(f, phoff, phentsize, j), off)
    ensures SegmentsClear(f, phoff, phentsize, n, i, off)
    decreases n - i
  {
    if i < n {
      assert EntryClear(f, PhdrAt(phoff, phentsize, i), EntryAt(f, phoff, phentsize, i), off);
      AllClear(f, phoff, phentsize, n, i + 1, off);
    }
  }

  lemma {:induction false} FirstHolderUpTo(x: Elf, n: nat) returns (j: nat)
    requires HoldsAt(x, n)
    ensures FirstHolder(x, 0, j)
    decreases n
  {
    if l: nat :| l < n && HoldsAt(x, l) {
      j := FirstHolderUpTo(x, l);
    } else {
      j := n;
    }
  }

  /** The word at off lies in segment h, where the walk over that segment finds it. */
  predicate WordIn(f: Bytes, h: Phdr, off: nat)
    requires Sized(f)
  {
    && IsNotes(h) && h.offset + h.filesz < TWO64 && Walk(f, h.offset, h.offset + h.filesz) == Desc(off)
    && h.offset <= off && off + 4 <= h.offset + h.filesz
  }

  /** Two results for the first feature control note of one segment. */
  lemma SameFind(f: Bytes, h: Phdr, ns: seq<Note>, off: nat, r: Found)
    requires HeldIn(f, h, ns, Desc(off)) && HeldIn(f, h, ns, r)
    ensures r == Desc(off) && h.offset <= off && off + 4 <= h.offset + h.filesz
  {
    var pos, end := h.offset, h.offset + h.filesz;
    var k: nat :| FirstAt(ns, k) && FindsAt(f, pos, end, ns, k, Desc(off));
    var l: nat :| FirstAt(ns, l) && FindsAt(f, pos, end, ns, l, r);
    assert k == l;
  }

  lemma SegmentHolds(f: Bytes, h: Phdr, ns: seq<Note>, off: nat)
    requires Sized(f) && SegmentLaidOut(f, h, ns) && HeldIn(f, h, ns, Desc(off))
    ensures WordIn(f, h, off)
  {
    SegmentResult(f, h, ns);
    assert Holds(h, ns);
    SameFind(f, h, ns, off, Walk(f, h.offset, h.offset + h.filesz));
  }

  lemma WordIsHeld(f: Bytes, x: Elf) returns (j: nat)
    requires ReadAs(f, x) && FindDesc(f).Desc?
    ensures j < |x.phdrs| && WordIn(f, x.phdrs[j], FindDesc(f).off)
  {
    ReadFinds(f, x);
    var some: nat :| HoldsAt(x, some);
    j := FirstHolderUpTo(x, some);
    assert SegmentLaidOut(f, x.phdrs[j], x.notes[j]);
    SegmentHolds(f, x.phdrs[j], x.notes[j], FindDesc(f).off);
  }

  predicate SegmentClear(f: Bytes, start: Word64, end: Word64, off: nat)
    requires Sized(f)
  {
    WalkClear(f, start, end, off)
  }

  lemma OwnSegment(f: Bytes, s: Phdr, off: nat)
    requires Sized(f) && WordIn(f, s, off)
    ensures SegmentClear(f, s.offset, s.offset + s.filesz, off)
  {
    OwnWalkClear(f, s.offset, s.offset + s.filesz);
  }

  lemma OtherSegment(f: Bytes, h: Phdr, ns: seq<Note>, off: nat)
    requires Sized(f) && SegmentLaidOut(f, h, ns) && IsNotes(h) && Clear(h.offset, h.filesz, off)
    ensures h.offset + h.filesz < TWO64 && SegmentClear(f, h.offset, h.offset + h.filesz, off)
  {
    SegmentReadsInside(f, h.offset, h.offset + h.filesz, ns, off);
  }

  lemma ApartFromWord(f: Bytes, o: nat, h: Phdr, s: Phdr, off: nat)
    requires Sized(f) && WordIn(f, s, off) && SeparateFrom(o, h, s)
    ensures Clear(o, PHDR_SIZE, off)
    ensures IsNotes(h) && !((h.offset, h.filesz) == (s.offset, s.filesz)) ==> Clear(h.offset, h.filesz, off)
  {}

  lemma SegmentIsClear(f: Bytes, o: nat, h: Phdr, ns: seq<Note>, s: Phdr, off: nat)
    requires Sized(f) && SegmentLaidOut(f, h, ns) && IsNotes(h)
    requires WordIn(f, s, off) && SeparateFrom(o, h, s)
    ensures h.offset + h.filesz < TWO64 && SegmentClear(f, h.offset, h.offset + h.filesz, off)
  {
    if (h.offset, h.filesz) == (s.offset, s.filesz) {
      OwnSegment(f, s, off);
    } else {
      ApartFromWord(f, o, h, s, off);
      OtherSegment(f, h, ns, off);
    }
  }

  /** A header and its segment are clear of the word, or its segment is the one in which the word is found. */
  lemma EntryIsClear(f: Bytes, o: nat, h: Phdr, ns: seq<Note>, s: Phdr, entry: Entry, off: nat)
    requires Sized(f) && SegmentLaidOut(f, h, ns) && IsNamed(entry, h)
    requires WordIn(f, s, off) && SeparateFrom(o, h, s)
    ensures EntryClear(f, o, entry, off)
  {
    ApartFromWord(f, o, h, s, off);
    if IsNotes(h) {
      SegmentIsClear(f, o, h, ns, s, off);
    }
    NamedIsClear(f, o, h, entry, off);
  }

  lemma NamedIsClear(f: Bytes, o: nat, h: Phdr, entry: Entry, off: nat)
    requires Sized(f) && IsNamed(entry, h) && Clear(o, PHDR_SIZE, off)
    requires IsNotes(h) ==> h.offset + h.filesz < TWO64 && SegmentClear(f, h.offset, h.offset + h.filesz, off)
    ensures EntryClear(f, o, entry, off)
  {}

  lemma SeparateIsClear(f: Bytes, x: Elf)
    requires ReadAs(f, x) && Separate(x) && FindDesc(f).Desc?
    ensures FindClear(f, FindDesc(f).off)
  {
    var off := FindDesc(f).off;
    var j := WordIsHeld(f, x);
    var phoff, phentsize := U64(f, 32), U16(f, 54);
    forall i: nat | i < |x.phdrs|
      ensures EntryClear(f, PhdrAt(phoff, phentsize, i), EntryAt(f, phoff, phentsize, i), off)
    {
      assert SeparateFrom(PhdrPos(x.ehdr, i), x.phdrs[i], x.phdrs[j]) && SegmentLaidOut(f, x.phdrs[i], x.notes[i]);
      EntryIsClear(f, PhdrPos(x.ehdr, i), x.phdrs[i], x.notes[i], x.phdrs[j], Entries(f)(i), off);
    }
    AllClear(f, phoff, phentsize, |x.phdrs|, 0, off);
  }

  /** In a file whose headers and note segments do not overlap, the word is clear, so the last run wins whatever
      ran before. */
  lemma LaidOutLastRunWins(f: Bytes, x: Elf, cs: seq<Command>)
    requires LaidOut(f, x) && Separate(x) && cs != [] && PatchFile(f, cs[0]).Patched?
    ensures Runs(Run(), f, cs) == PatchFile(f, cs[|cs| - 1])
  {
    LaidOutIsRead(f, x);
    SeparateIsClear(f, x);
    LastRunWins(f, cs);
  }

  // ---- from layout to layout ----------------------------------------------------------------------

  /** The header passes the checks. */
  predicate Supported(e: Ehdr) {
    |e.ident| == 16 && e.ident[..6] == [0x7f, 'E' as int, 'L' as int, 'F' as int, 2, 1] && e.phentsize == PHDR_SIZE
  }

  lemma SupportedIsGood(f: Bytes, x: Elf)
    requires LaidOut(f, x) && Supported(x.ehdr)
    ensures HeaderGood(f)
  {
    EhdrRead(f, x.ehdr);
    assert f[..6] == f[..16][..6];
    ChecksPass(f);
  }

  /** A laid-out file is refused exactly when no note in a note segment is a feature control note, or the first of
      these has no room for the word. */
  lemma PatchesExactly(f: Bytes, x: Elf, c: Command)
    requires LaidOut(f, x) && Supported(x.ehdr)
    ensures PatchFile(f, c) == Refused(NoNote) <==> forall j: nat :: !HoldsAt(x, j)
    ensures forall j: nat, k: nat | FirstHolder(x, 0, j) && FirstAt(x.notes[j], k) ::
      if |x.notes[j][k].desc| < 4 then PatchFile(f, c) == Refused(DescTooSmall) else PatchFile(f, c).Patched?
  {
    SupportedIsGood(f, x);
    LaidOutIsRead(f, x);
    ReadFinds(f, x);
    RefusesExactly(f, c);
    forall j: nat, k: nat | FirstHolder(x, 0, j) && FirstAt(x.notes[j], k)
      ensures
        if |x.notes[j][k].desc| < 4 then FindDesc(f) == Fail(DescTooSmall)
        else FindDesc(f).Desc? && FindDesc(f).off + 4 <= |f|
    {
      FoundInFirst(f, x, j, k);
    }
  }

  lemma FoundInFirst(f: Bytes, x: Elf, j: nat, k: nat)
    requires ReadAs(f, x) && FirstHolder(x, 0, j) && FirstAt(x.notes[j], k)
    ensures var h := x.phdrs[j]; FindsAt(f, h.offset, h.offset + h.filesz, x.notes[j], k, FindDesc(f))
  {
    ReadFinds(f, x);
    var h, ns := x.phdrs[j], x.notes[j];
    var l: nat :| FirstAt(ns, l) && FindsAt(f, h.offset, h.offset + h.filesz, ns, l, FindDesc(f));
    assert k == l;
  }

  /** What patching the word n at off comes to. */
  ghost predicate WordPatched(f: Bytes, c: Command, off: nat, n: Word32, g: Bytes) {
    SameElsewhere(f, g, off) && exists v: bv32 :: RightBits(c, Bits(n), v) && At(g, off, LE(Number(v), 4))
  }

  lemma PatchesWord(f: Bytes, c: Command, off: nat, desc: Bytes, n: Word32)
    requires At(f, off, desc) && LE(n, 4) <= desc
    ensures off + 4 <= |f| && WordPatched(f, c, off, n, Store(f, off, Rewrite(c, U32(f, off))))
  {
    assert f[off..off + 4] == f[off..off + |desc|][..4] == LE(n, 4);
    FieldsExactly(f, off, n);
    StoreLoad(f, off, Rewrite(c, n));
    NewBitsRight(c, Bits(n));
  }

  lemma PatchedAt(f: Bytes, c: Command, off: nat)
    requires Sized(f) && PatchFile(f, c).Patched? && FindDesc(f) == Desc(off)
    ensures off + 4 <= |f| && PatchFile(f, c).file == Store(f, off, Rewrite(c, U32(f, off)))
  {}

  lemma FoundBytes(f: Bytes, pos: nat, end: nat, ns: seq<Note>, k: nat, r: Found)
    requires k < |ns| && |ns[k].desc| >= 4 && FindsAt(f, pos, end, ns, k, r)
    ensures r == Desc(pos + Sizes(ns[..k]) + NHDR_SIZE + 8) && At(f, r.off, ns[k].desc)
  {}

  function NoteDesc(x: Elf, j: nat, k: nat): nat
    requires j < |x.phdrs| && j < |x.notes| && k < |x.notes[j]|
  {
    x.phdrs[j].offset + Sizes(x.notes[j][..k]) + NHDR_SIZE + 8
  }

  lemma NoteFound(f: Bytes, x: Elf, j: nat, k: nat)
    requires ReadAs(f, x) && FirstHolder(x, 0, j) && FirstAt(x.notes[j], k) && |x.notes[j][k].desc| >= 4
    ensures FindDesc(f) == Desc(NoteDesc(x, j, k)) && At(f, NoteDesc(x, j, k), x.notes[j][k].desc)
  {
    FoundInFirst(f, x, j, k);
    var h := x.phdrs[j];
    FoundBytes(f, h.offset, h.offset + h.filesz, x.notes[j], k, FindDesc(f));
  }

  /** And otherwise these bytes change: the first four of the descriptor of that note, from the old word to the right
      new one, each lowest byte first. */
  lemma PatchesTheNote(f: Bytes, x: Elf, c: Command, j: nat, k: nat, n: Word32)
    requires LaidOut(f, x) && Supported(x.ehdr) && FirstHolder(x, 0, j) && FirstAt(x.notes[j], k)
    requires LE(n, 4) <= x.notes[j][k].desc
    ensures PatchFile(f, c).Patched? && WordPatched(f, c, NoteDesc(x, j, k), n, PatchFile(f, c).file)
  {
    PatchesExactly(f, x, c);
    LaidOutIsRead(f, x);
    var off, desc := NoteDesc(x, j, k), x.notes[j][k].desc;
    assert |desc| >= |LE(n, 4)|;
    NoteFound(f, x, j, k);
    PatchedAt(f, c, off);
    PatchesWord(f, c, off, desc, n);
  }

  // ---- the file of the tool's own test ------------------------------------------------------------

  const TEST_EHDR := Ehdr([0x7f, 'E' as int, 'L' as int, 'F' as int, 2, 1, 0, 0, 0, 0, 0, 0, 0, 0, 0, 0],
                          0, 0, 0, 0, 64, 0, 0, 0, 56, 1, 0, 0, 0)
  const TEST_PHDR := Phdr(PT_NOTE, 0, 120, 0, 0, 24, 0, 0)
  const TEST_NOTE := Note(FREEBSD, 2, LE(0, 4), 1, NT_FREEBSD_FEATURE_CTL)
  const TEST_ELF := Elf(TEST_EHDR, [TEST_PHDR], [[TEST_NOTE]])

  function TestFile(): Bytes { EhdrBytes(TEST_EHDR) + PhdrBytes(TEST_PHDR) + NhdrBytes(8, 4, 4) + FREEBSD + LE(0, 4) }

  lemma TestNoteEncoded(f: Bytes)
    requires |f| == 144 && At(f, 120, NhdrBytes(8, 4, 4)) && At(f, 132, FREEBSD) && At(f, 140, LE(0, 4))
    ensures EncodesAll(f, 120, 144, [TEST_NOTE])
  {
    assert Size(TEST_NOTE) == 24 && |FREEBSD| == 8;
    assert Encodes(f, 120, TEST_NOTE);
    assert [TEST_NOTE][1..] == [];
  }

  lemma TestParts()
    ensures var f := TestFile();
      && |f| == 144 && At(f, 0, EhdrBytes(TEST_EHDR)) && At(f, 64, PhdrBytes(TEST_PHDR))
      && At(f, 120, NhdrBytes(8, 4, 4)) && At(f, 132, FREEBSD) && At(f, 140, LE(0, 4))
  {
    var f, e, h := TestFile(), EhdrBytes(TEST_EHDR), PhdrBytes(TEST_PHDR);
    PartsOf(f, e, h, NhdrBytes(8, 4, 4), FREEBSD, LE(0, 4));
  }

  lemma PartsOf(f: Bytes, a: Bytes, b: Bytes, c: Bytes, d: Bytes, e: Bytes)
    requires f == a + b + c + d + e
    ensures At(f, 0, a) && At(f, |a|, b) && At(f, |a| + |b|, c) && At(f, |a| + |b| + |c|, d)
    ensures At(f, |a| + |b| + |c| + |d|, e)
  {
    assert At(f, 0, f);
    AtBoth(f, 0, a + b + c + d, e);
    AtBoth(f, 0, a + b + c, d);
    AtBoth(f, 0, a + b, c);
    AtBoth(f, 0, a, b);
  }

  lemma TestFileIs()
    ensures LaidOut(TestFile(), TEST_ELF) && Separate(TEST_ELF) && Supported(TEST_EHDR)
  {
    var f := TestFile();
    TestParts();
    TestNoteEncoded(f);
    assert PhdrPos(TEST_EHDR, 0) == 64;
    assert SegmentLaidOut(f, TEST_PHDR, [TEST_NOTE]);
    assert PhdrLaidOut(f, TEST_EHDR, 0, TEST_PHDR);
  }

  /** The same for many runs. */
  lemma RunsPatchTheNote(f: Bytes, x: Elf, cs: seq<Command>, j: nat, k: nat, n: Word32)
    requires LaidOut(f, x) && Supported(x.ehdr) && Separate(x) && FirstHolder(x, 0, j) && FirstAt(x.notes[j], k)
    requires LE(n, 4) <= x.notes[j][k].desc && cs != []
    ensures var r := Runs(Run(), f, cs);
      r.Patched? && WordPatched(f, cs[|cs| - 1], NoteDesc(x, j, k), n, r.file)
  {
    PatchesTheNote(f, x, cs[0], j, k, n);
    LaidOutLastRunWins(f, x, cs);
    PatchesTheNote(f, x, cs[|cs| - 1], j, k, n);
  }

  function OnlyBit(c: Command): Word32 { if c.CheriRevoke? then 0x8000_0000 else 0x20 }

  lemma OnlyBitSet(c: Command, v: bv32)
    requires RightBits(c, Bits(0), v)
    ensures Number(v) == OnlyBit(c)
  {
    assert Bits(0) == 0;
  }

  lemma TestHolder()
    ensures FirstHolder(TEST_ELF, 0, 0) && FirstAt(TEST_ELF.notes[0], 0) && NoteDesc(TEST_ELF, 0, 0) == 140
  {
    var ns := [TEST_NOTE];
    assert IsFeatureCtl(ns[0]) && HoldsAt(TEST_ELF, 0);
    assert ns[..0] == [];
  }

  lemma TestWord(f: Bytes, c: Command, g: Bytes)
    requires WordPatched(f, c, 140, 0, g)
    ensures SameElsewhere(f, g, 140) && At(g, 140, LE(OnlyBit(c), 4))
  {
    var v: bv32 :| RightBits(c, Bits(0), v) && At(g, 140, LE(Number(v), 4));
    OnlyBitSet(c, v);
  }

  /** Any runs on the file of the test leave in it the bit of the last one, and no other. */
  lemma TestFileIsPatched(cs: seq<Command>)
    requires cs != []
    ensures var r := Runs(Run(), TestFile(), cs);
      r.Patched? && SameElsewhere(TestFile(), r.file, 140) && At(r.file, 140, LE(OnlyBit(cs[|cs| - 1]), 4))
  {
    TestFileIs();
    TestHolder();
    RunsPatchTheNote(TestFile(), TEST_ELF, cs, 0, 0, 0);
    TestWord(TestFile(), cs[|cs| - 1], Runs(Run(), TestFile(), cs).file);
  }
}
