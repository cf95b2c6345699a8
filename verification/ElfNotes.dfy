/** set-feature-ctl-note: finding the FreeBSD feature control note of an ELF64 file by a walk over raw bytes
    with 32- and 64-bit wrap-around. */
module ElfNotes {
  import opened LittleEndian
  import opened Words

  const PT_NOTE := 4
  const NT_FREEBSD_FEATURE_CTL := 4
  const EHDR_SIZE := 64
  const PHDR_SIZE := 56
  const NHDR_SIZE := 12

  /** "FreeBSD" with its terminator. */
  const FREEBSD: seq<Byte> := [0x46, 0x72, 0x65, 0x65, 0x42, 0x53, 0x44, 0]

  /** A file length is an off_t. */
  predicate Sized(f: Bytes) { |f| < TWO63 }

  // ---- the walk -------------------------------------------------------------------------------

  datatype Error = ShortRead | NotElf | BadHeader | DescTooSmall | NoNote

  datatype Found = Desc(off: nat) | Absent | Fail(error: Error)

  /** pread of n bytes at a uint64_t offset cast to off_t. */
  predicate CanRead(f: Bytes, off: nat, n: nat) { off < TWO63 && off + n <= |f| }

  function RoundUp4(x: Word32): Word32 { Add32(x, 3) / 4 * 4 }

  /** The step from one note's name to the next note: two uint32_t sizes added as uint32_t. */
  function Stride(namesz: Word32, descsz: Word32): Word32 { Add32(RoundUp4(namesz), RoundUp4(descsz)) }

  datatype Header = Header(namesz: nat, descsz: nat, kind: nat)

  function HeaderAt(f: Bytes, pos: nat): (h: Header)
    requires pos + NHDR_SIZE <= |f|
    ensures h.namesz < TWO32 && h.descsz < TWO32
  {
    Header(U32(f, pos), U32(f, pos + 4), U32(f, pos + 8))
  }

  datatype Turn = Stop(result: Found) | Go(next: nat)

  /** What the walk does with header h, whose name starts at p and is name4 bytes long with padding, and
      whose successor is stride bytes after p. */
  function TurnOf(f: Bytes, p: nat, h: Header, name4: nat, stride: nat): Turn {
    if h.namesz == 8 && h.kind == NT_FREEBSD_FEATURE_CTL then
      if !CanRead(f, p, 8) then Stop(Fail(ShortRead))
      else if f[p..p + 8] == FREEBSD then
        Stop(if h.descsz < 4 then Fail(DescTooSmall) else Desc(p + name4))
      else Go(p + stride)
    else Go(p + stride)
  }

  /** One turn of the walk over a segment that ends at end. */
  function TurnAt(f: Bytes, pos: Word64, end: Word64): (t: Turn)
    requires Sized(f)
    ensures t.Go? ==> pos + NHDR_SIZE <= t.next < TWO64 && pos + NHDR_SIZE <= |f|
  {
    if Add64(pos, NHDR_SIZE) > end then Stop(Absent)
    else if !CanRead(f, pos, NHDR_SIZE) then Stop(Fail(ShortRead))
    else
      var h := HeaderAt(f, pos);
      TurnOf(f, pos + NHDR_SIZE, h, RoundUp4(h.namesz), Stride(h.namesz, h.descsz))
  }

  function Walk(f: Bytes, pos: Word64, end: Word64): Found
    requires Sized(f)
    decreases TWO64 - pos
  {
    match TurnAt(f, pos, end)
    case Stop(r) => r
    case Go(next) => Walk(f, next, end)
  }

  /** Byte offset of program header i. */
  function PhdrAt(phoff: Word64, phentsize: nat, i: nat): Word64
    requires phentsize < 0x1_0000 && i < 0x1_0000
  {
    ProductSmall(i, phentsize);
    Add64(phoff, i * phentsize)
  }

  lemma {:induction false} ProductAtMost(a: nat, b: nat, c: nat)
    requires a <= c
    ensures a * b <= c * b
    decreases c - a
  {
    if a < c { ProductAtMost(a + 1, b, c); }
  }

  lemma ProductSmall(a: nat, b: nat)
    requires a < 0x1_0000 && b < 0x1_0000
    ensures a * b < TWO32
  {
    ProductAtMost(a, b, 0xffff);
  }

  /** What program header i says: it cannot be read, it is of another type, or it is a note segment. */
  datatype Entry = Missing | Other | Notes(start: Word64, end: Word64)

  function EntryAt(f: Bytes, phoff: Word64, phentsize: nat, i: nat): Entry
    requires phentsize < 0x1_0000 && i < 0x1_0000
  {
    var o := PhdrAt(phoff, phentsize, i);
    if !CanRead(f, o, PHDR_SIZE) then Missing
    else if U32(f, o) != PT_NOTE then Other
    else Notes(U64(f, o + 8), Add64(U64(f, o + 8), U64(f, o + 32)))
  }

  /** e_phnum is 16 bits wide, so no header beyond those is ever asked for. */
  function Entries(f: Bytes): nat -> Entry
    requires |f| >= EHDR_SIZE
  {
    (i: nat) => if i < 0x1_0000 then EntryAt(f, U64(f, 32), U16(f, 54), i) else Missing
  }

  function Segments(f: Bytes, entry: nat -> Entry, n: nat, i: nat): Found
    requires Sized(f)
    decreases n - i
  {
    if i >= n then Absent
    else
      match entry(i)
      case Missing => Fail(ShortRead)
      case Other => Segments(f, entry, n, i + 1)
      case Notes(start, end) =>
        var r := Walk(f, start, end);
        if r.Absent? then Segments(f, entry, n, i + 1) else r
  }

  /** find_feature_ctl_desc on a file whose ELF header has been read. */
  function FindDesc(f: Bytes): Found
    requires Sized(f) && |f| >= EHDR_SIZE
  {
    Segments(f, Entries(f), U16(f, 56), 0)
  }

  /** The walk as written, over the program headers. */
  method FindFeatureCtlDesc(file: array<Byte>) returns (r: Found)
    requires Sized(file[..]) && file.Length >= EHDR_SIZE
    ensures r == FindDesc(file[..])
  {
    ghost var f := file[..];
    var phoff, phentsize, phnum := U64(file[..], 32), U16(file[..], 54), U16(file[..], 56);
    var i := 0;
    while i < phnum
      invariant 0 <= i <= phnum
      invariant FindDesc(f) == Segments(f, Entries(f), phnum, i)
    {
      ghost var e := Entries(f)(i);
      var o := PhdrAt(phoff, phentsize, i);
      if !CanRead(file[..], o, PHDR_SIZE) {
        assert e == Missing;
        return Fail(ShortRead);
      }
      if U32(file[..], o) != PT_NOTE {
        assert e == Other;
        i := i + 1;
        continue;
      }
      var start := U64(file[..], o + 8);
      var end := Add64(start, U64(file[..], o + 32));
      assert e == Notes(start, end);
      r := WalkSegment(file, start, end);
      if !r.Absent? {
        return;
      }
      i := i + 1;
    }
    return Absent;
  }

  /** The inner loop. It ends on any bytes, because every note read moves pos up by its header. */
  method WalkSegment(file: array<Byte>, start: Word64, end: Word64) returns (r: Found)
    requires Sized(file[..])
    ensures r == Walk(file[..], start, end)
  {
    var pos: Word64 := start;
    ghost var f := file[..];
    while Add64(pos, NHDR_SIZE) <= end
      invariant Walk(f, start, end) == Walk(f, pos, end)
      decreases TWO64 - pos
    {
      ghost var turn := TurnAt(f, pos, end);
      if !CanRead(file[..], pos, NHDR_SIZE) {
        return Fail(ShortRead);
      }
      var h := HeaderAt(file[..], pos);
      pos := pos + NHDR_SIZE;
      if h.namesz == 8 && h.kind == NT_FREEBSD_FEATURE_CTL {
        if !CanRead(file[..], pos, 8) {
          return Fail(ShortRead);
        }
        if file[pos..pos + 8] == FREEBSD {
          return if h.descsz < 4 then Fail(DescTooSmall) else Desc(pos + RoundUp4(h.namesz));
        }
      }
      pos := pos + Stride(h.namesz, h.descsz);
      assert turn == Go(pos);
    }
    return Absent;
  }

  /** Where the 32-bit arithmetic wraps: a size within three of 2^32 is padded to nothing, and the two padded sizes are
      added modulo 2^32. */
  lemma PaddingExactly(x: Word32, y: Word32)
    ensures x <= TWO32 - 4 ==> x <= RoundUp4(x) < x + 4 && RoundUp4(x) % 4 == 0
    ensures TWO32 - 4 < x ==> RoundUp4(x) == 0
    ensures Stride(x, y) == (RoundUp4(x) + RoundUp4(y)) % TWO32
  {}

  /** And the 64-bit arithmetic: of a note segment whose end wraps nothing is read, unless the first header's end wraps
      too and falls within it; that header cannot be read. */
  lemma WrappedSegment(f: Bytes, offset: Word64, filesz: Word64)
    requires Sized(f) && offset + filesz >= TWO64
    ensures Walk(f, offset, Add64(offset, filesz)) ==
      if offset + NHDR_SIZE >= TWO64 && NHDR_SIZE <= filesz then Fail(ShortRead) else Absent
  {
    assert TurnAt(f, offset, Add64(offset, filesz)).Stop?;
  }

  /** How many note headers a walk gets past. */
  function NotesRead(f: Bytes, pos: Word64, end: Word64): nat
    requires Sized(f)
    decreases TWO64 - pos
  {
    match TurnAt(f, pos, end)
    case Stop(_) => 0
    case Go(next) => 1 + NotesRead(f, next, end)
  }

  /** On any bytes at all: each lies at least 12 bytes further on in what is left of the file. */
  lemma {:induction false} WalkIsShort(f: Bytes, pos: Word64, end: Word64)
    requires Sized(f)
    ensures NHDR_SIZE * NotesRead(f, pos, end) <= if pos <= |f| then |f| - pos else 0
    decreases TWO64 - pos
  {
    var t := TurnAt(f, pos, end);
    if t.Go? { WalkIsShort(f, t.next, end); }
  }

  // ---- well-formed note segments --------------------------------------------------------------

  /** A note: name and descriptor, with the number of 4-byte words each takes when padded. */
  datatype Note = Note(name: Bytes, nameWords: nat, desc: Bytes, descWords: nat, kind: nat)

  function Size(n: Note): nat { NHDR_SIZE + 4 * n.nameWords + 4 * n.descWords }

  /** The bytes of an Elf64_Nhdr. */
  function NhdrBytes(namesz: nat, descsz: nat, kind: nat): Bytes { LE(namesz, 4) + LE(descsz, 4) + LE(kind, 4) }

  /** The bytes at pos are exactly the encoding of n: sizes, type, padded name, padded descriptor. */
  predicate Encodes(f: Bytes, pos: nat, n: Note) {
    var p := pos + NHDR_SIZE;
    && pos + Size(n) <= |f|
    && |n.name| <= 4 * n.nameWords < |n.name| + 4
    && |n.desc| <= 4 * n.descWords < |n.desc| + 4
    && |n.name| < TWO32 && |n.desc| < TWO32 && n.kind < TWO32
    && At(f, pos, NhdrBytes(|n.name|, |n.desc|, n.kind)) && At(f, p, n.name) && At(f, p + 4 * n.nameWords, n.desc)
  }

  lemma HeaderRead(f: Bytes, pos: nat, namesz: nat, descsz: nat, kind: nat)
    requires namesz < TWO32 && descsz < TWO32 && kind < TWO32 && At(f, pos, NhdrBytes(namesz, descsz, kind))
    ensures HeaderAt(f, pos) == Header(namesz, descsz, kind)
  {
    AtBoth(f, pos, LE(namesz, 4) + LE(descsz, 4), LE(kind, 4));
    AtBoth(f, pos, LE(namesz, 4), LE(descsz, 4));
    FieldsExactly(f, pos, namesz);
    FieldsExactly(f, pos + 4, descsz);
    FieldsExactly(f, pos + 8, kind);
  }

  /** The bytes from pos to end are the notes ns one after another, with less than a header left over. */
  predicate EncodesAll(f: Bytes, pos: nat, end: nat, ns: seq<Note>)
    decreases |ns|
  {
    if ns == [] then pos <= end < pos + NHDR_SIZE
    else
      var next := pos + Size(ns[0]);
      next <= end && Encodes(f, pos, ns[0]) && EncodesAll(f, next, end, ns[1..])
  }

  predicate IsFeatureCtl(n: Note) { n.name == FREEBSD && n.kind == NT_FREEBSD_FEATURE_CTL }

  function Sizes(ns: seq<Note>): nat { if ns == [] then 0 else Size(ns[0]) + Sizes(ns[1..]) }

  /** Parse everything, take the first match: k is the first feature control note of ns, at pos. */
  ghost predicate FirstAt(ns: seq<Note>, k: nat) {
    k < |ns| && IsFeatureCtl(ns[k]) && forall j :: 0 <= j < k ==> !IsFeatureCtl(ns[j])
  }

  /** Padding by 32-bit arithmetic, on sizes that fit a segment. */
  lemma StrideSmall(x: nat, xWords: nat, y: nat, yWords: nat)
    requires x <= 4 * xWords < x + 4 && y <= 4 * yWords < y + 4 && 4 * xWords + 4 * yWords < TWO32
    ensures RoundUp4(x) == 4 * xWords && Stride(x, y) == 4 * xWords + 4 * yWords
  {}

  /** One encoded note in the file is one turn of the walk. */
  lemma TurnOne(f: Bytes, pos: nat, end: nat, n: Note)
    requires Sized(f) && pos + Size(n) <= end <= |f| && Size(n) < TWO32 && Encodes(f, pos, n)
    ensures TurnAt(f, pos, end) ==
      if !IsFeatureCtl(n) then Go(pos + Size(n))
      else Stop(if |n.desc| < 4 then Fail(DescTooSmall) else Desc(pos + NHDR_SIZE + 8))
  {
    HeaderRead(f, pos, |n.name|, |n.desc|, n.kind);
    StrideSmall(|n.name|, n.nameWords, |n.desc|, n.descWords);
  }

  /** What the walk over the notes ns at pos should find. */
  ghost predicate FindsFirst(f: Bytes, pos: nat, end: nat, ns: seq<Note>, r: Found) {
    && (r.Absent? <==> forall k :: 0 <= k < |ns| ==> !IsFeatureCtl(ns[k]))
    && (forall k: nat :: FirstAt(ns, k) ==> FindsAt(f, pos, end, ns, k, r))
  }

  predicate FindsAt(f: Bytes, pos: nat, end: nat, ns: seq<Note>, k: nat, r: Found)
    requires k < |ns|
  {
    if |ns[k].desc| < 4 then r == Fail(DescTooSmall)
    else
      var off := pos + Sizes(ns[..k]) + NHDR_SIZE + 8;
      r == Desc(off) && off + |ns[k].desc| <= end <= |f| && f[off..off + |ns[k].desc|] == ns[k].desc
  }

  lemma FirstAtTail(ns: seq<Note>)
    requires ns != []
    ensures IsFeatureCtl(ns[0]) ==> forall k: nat :: FirstAt(ns, k) <==> k == 0
    ensures !IsFeatureCtl(ns[0]) ==> forall k: nat :: FirstAt(ns, k) <==> k > 0 && FirstAt(ns[1..], k - 1)
    ensures (forall k :: 0 <= k < |ns| ==> !IsFeatureCtl(ns[k]))
       <==> !IsFeatureCtl(ns[0]) && forall k :: 0 <= k < |ns| - 1 ==> !IsFeatureCtl(ns[1..][k])
  {
    assert forall j :: 1 <= j < |ns| ==> ns[j] == ns[1..][j - 1];
    assert forall j :: 0 <= j < |ns| - 1 ==> ns[1..][j] == ns[j + 1];
  }

  lemma FoundHere(f: Bytes, pos: nat, end: nat, ns: seq<Note>, r: Found)
    requires ns != [] && IsFeatureCtl(ns[0]) && pos + Size(ns[0]) <= end <= |f| && Encodes(f, pos, ns[0])
    requires r == if |ns[0].desc| < 4 then Fail(DescTooSmall) else Desc(pos + NHDR_SIZE + 8)
    ensures FindsFirst(f, pos, end, ns, r)
  {
    FirstAtTail(ns);
    assert Sizes(ns[..0]) == 0;
  }

  lemma FoundLater(f: Bytes, pos: nat, end: nat, ns: seq<Note>, r: Found)
    requires ns != [] && !IsFeatureCtl(ns[0]) && FindsFirst(f, pos + Size(ns[0]), end, ns[1..], r)
    ensures FindsFirst(f, pos, end, ns, r)
  {
    FirstAtTail(ns);
    forall k: nat | FirstAt(ns, k) ensures FindsAt(f, pos, end, ns, k, r) {
      assert ns[k] == ns[1..][k - 1];
      assert ns[..k][1..] == ns[1..][..k - 1];
      assert FindsAt(f, pos + Size(ns[0]), end, ns[1..], k - 1, r);
    }
  }

  lemma WalkStops(f: Bytes, pos: Word64, end: Word64, r: Found)
    requires Sized(f) && TurnAt(f, pos, end) == Stop(r)
    ensures Walk(f, pos, end) == r
  {}

  lemma WalkGoes(f: Bytes, pos: Word64, end: Word64, next: Word64)
    requires Sized(f) && TurnAt(f, pos, end) == Go(next)
    ensures Walk(f, pos, end) == Walk(f, next, end)
  {}

  lemma EmptyWalk(f: Bytes, pos: nat, end: nat)
    requires Sized(f) && pos <= end <= |f| && end < pos + NHDR_SIZE
    ensures TurnAt(f, pos, end) == Stop(Absent) && FindsFirst(f, pos, end, [], Absent)
  {}

  /** One note in front of a segment of which the walk is understood. */
  lemma WalkFromNote(f: Bytes, pos: nat, end: nat, ns: seq<Note>)
    requires Sized(f) && ns != [] && pos + Size(ns[0]) <= end <= |f| && Size(ns[0]) < TWO32 && Encodes(f, pos, ns[0])
    requires !IsFeatureCtl(ns[0]) ==>
      var next := pos + Size(ns[0]); FindsFirst(f, next, end, ns[1..], Walk(f, next, end))
    ensures FindsFirst(f, pos, end, ns, Walk(f, pos, end))
  {
    var n, next := ns[0], pos + Size(ns[0]);
    TurnOne(f, pos, end, n);
    if IsFeatureCtl(n) {
      var r := if |n.desc| < 4 then Fail(DescTooSmall) else Desc(pos + NHDR_SIZE + 8);
      WalkStops(f, pos, end, r);
      FoundHere(f, pos, end, ns, r);
    } else {
      WalkGoes(f, pos, end, next);
      FoundLater(f, pos, end, ns, Walk(f, next, end));
    }
  }

  /** On a well-formed segment the walk finds the first feature control note there is, at its descriptor,
      and nothing exactly when there is none: the wrapping size sums never get in the way. */
  lemma {:induction false} WalkTakesFirst(f: Bytes, pos: nat, end: nat, ns: seq<Note>)
    requires Sized(f) && pos <= end <= |f| && end - pos < TWO32 && EncodesAll(f, pos, end, ns)
    ensures FindsFirst(f, pos, end, ns, Walk(f, pos, end))
    decreases |ns|
  {
    if ns == [] {
      EmptyWalk(f, pos, end);
      WalkStops(f, pos, end, Absent);
    } else {
      WalkTakesFirst(f, pos + Size(ns[0]), end, ns[1..]);
      WalkFromNote(f, pos, end, ns);
    }
  }

  // ---- what the search reads ------------------------------------------------------------------

  predicate SameElsewhere(f: Bytes, g: Bytes, off: nat) {
    |f| == |g| && forall i :: 0 <= i < |f| && !(off <= i < off + 4) ==> f[i] == g[i]
  }

  /** The n bytes at a are none of the four at off. */
  predicate Clear(a: nat, n: nat, off: nat) { a + n <= off || off + 4 <= a }

  predicate TurnClear(f: Bytes, pos: Word64, end: Word64, off: nat) {
    Add64(pos, NHDR_SIZE) <= end && CanRead(f, pos, NHDR_SIZE) ==>
      && Clear(pos, NHDR_SIZE, off)
      && (var h := HeaderAt(f, pos);
          h.namesz == 8 && h.kind == NT_FREEBSD_FEATURE_CTL && CanRead(f, pos + NHDR_SIZE, 8) ==>
            Clear(pos + NHDR_SIZE, 8, off))
  }

  /** No header or name the walk reads overlaps the word at off. */
  predicate WalkClear(f: Bytes, pos: Word64, end: Word64, off: nat)
    requires Sized(f)
    decreases TWO64 - pos
  {
    && TurnClear(f, pos, end, off)
    && (var t := TurnAt(f, pos, end); t.Go? ==> WalkClear(f, t.next, end, off))
  }

  /** Nor does anything the search reads before it stops. */
  predicate SegmentsClear(f: Bytes, phoff: Word64, phentsize: nat, n: nat, i: nat, off: nat)
    requires Sized(f) && phentsize < 0x1_0000 && n < 0x1_0000
    decreases n - i
  {
    i < n ==>
      var e := EntryAt(f, phoff, phentsize, i);
      && Clear(PhdrAt(phoff, phentsize, i), PHDR_SIZE, off)
      && (e.Notes? ==> WalkClear(f, e.start, e.end, off))
      && (e.Other? || (e.Notes? && Walk(f, e.start, e.end).Absent?) ==>
            SegmentsClear(f, phoff, phentsize, n, i + 1, off))
  }

  predicate FindClear(f: Bytes, off: nat)
    requires Sized(f) && |f| >= EHDR_SIZE
  {
    EHDR_SIZE <= off && SegmentsClear(f, U64(f, 32), U16(f, 54), U16(f, 56), 0, off)
  }

  lemma HeaderSame(f: Bytes, g: Bytes, off: nat, pos: nat)
    requires SameElsewhere(f, g, off) && pos + NHDR_SIZE <= |f| && Clear(pos, NHDR_SIZE, off)
    ensures HeaderAt(f, pos) == HeaderAt(g, pos)
  {}

  lemma TurnSame(f: Bytes, g: Bytes, off: nat, pos: Word64, end: Word64)
    requires Sized(f) && SameElsewhere(f, g, off) && TurnClear(f, pos, end, off)
    ensures TurnAt(g, pos, end) == TurnAt(f, pos, end)
  {
    if CanRead(f, pos, NHDR_SIZE) && Clear(pos, NHDR_SIZE, off) {
      HeaderSame(f, g, off, pos);
      var p := pos + NHDR_SIZE;
      if CanRead(f, p, 8) && Clear(p, 8, off) { assert f[p..p + 8] == g[p..p + 8]; }
    }
  }

  lemma {:induction false} WalkSame(f: Bytes, g: Bytes, off: nat, pos: Word64, end: Word64)
    requires Sized(f) && SameElsewhere(f, g, off) && WalkClear(f, pos, end, off)
    ensures Walk(g, pos, end) == Walk(f, pos, end)
    decreases TWO64 - pos
  {
    TurnSame(f, g, off, pos, end);
    var t := TurnAt(f, pos, end);
    if t.Go? { WalkSame(f, g, off, t.next, end); }
  }

  lemma EntrySame(f: Bytes, g: Bytes, off: nat, phoff: Word64, phentsize: nat, i: nat)
    requires SameElsewhere(f, g, off) && phentsize < 0x1_0000 && i < 0x1_0000
    requires Clear(PhdrAt(phoff, phentsize, i), PHDR_SIZE, off)
    ensures EntryAt(g, phoff, phentsize, i) == EntryAt(f, phoff, phentsize, i)
  {
    var o := PhdrAt(phoff, phentsize, i);
    if CanRead(f, o, PHDR_SIZE) {
      FieldSame(f, g, off, o);
      FieldSame(f, g, off, o + 8);
      FieldSame(f, g, off, o + 32);
    }
  }

  lemma FieldSame(f: Bytes, g: Bytes, off: nat, o: nat)
    requires SameElsewhere(f, g, off) && o + 8 <= |f| && Clear(o, 8, off)
    ensures U16(f, o) == U16(g, o) && U32(f, o) == U32(g, o) && U64(f, o) == U64(g, o)
  {}

  lemma {:induction false} SegmentsSame(f: Bytes, g: Bytes, off: nat, phoff: Word64, phentsize: nat, n: nat, i: nat,
                                        ef: nat -> Entry, eg: nat -> Entry)
    requires Sized(f) && SameElsewhere(f, g, off) && phentsize < 0x1_0000 && n < 0x1_0000
    requires SegmentsClear(f, phoff, phentsize, n, i, off)
    requires forall k: nat :: k < n ==> ef(k) == EntryAt(f, phoff, phentsize, k)
    requires forall k: nat :: k < n ==> eg(k) == EntryAt(g, phoff, phentsize, k)
    ensures Segments(g, eg, n, i) == Segments(f, ef, n, i)
    decreases n - i
  {
    if i < n {
      EntrySame(f, g, off, phoff, phentsize, i);
      var e := ef(i);
      if e.Notes? { WalkSame(f, g, off, e.start, e.end); }
      if e.Other? || (e.Notes? && Walk(f, e.start, e.end).Absent?) {
        SegmentsSame(f, g, off, phoff, phentsize, n, i + 1, ef, eg);
      }
    }
  }

  lemma FindSame(f: Bytes, g: Bytes, off: nat)
    requires Sized(f) && |f| >= EHDR_SIZE && SameElsewhere(f, g, off) && FindClear(f, off)
    ensures FindDesc(g) == FindDesc(f)
  {
    FieldSame(f, g, off, 32);
    FieldSame(f, g, off, 54);
    FieldSame(f, g, off, 56);
    SegmentsSame(f, g, off, U64(f, 32), U16(f, 54), U16(f, 56), 0, Entries(f), Entries(g));
  }
}
